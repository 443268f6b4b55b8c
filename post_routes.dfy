/**
 * The post endpoints: create, list with search, delete, the like and save toggles, and the
 * comment list, add and delete. Each handler is a method on the `Database` that checks its
 * error cases in the order the handler does and then inserts or deletes rows.
 */
module PostRoutes {
  import opened Wrappers
  import opened Text
  import opened Rows
  import opened Schema
  import opened Db
  import opened Views

  /** The buffer of one uploaded file. */
  type Blob = seq<bv8>

  /** The answer of the `requireUser` middleware when the `x-user-id` header is missing. */
  const NoCaller := Failure(401, "x-user-id header is required")
  const NoPost := Failure(404, "Post not found")

  /** The body of a successful like toggle. */
  datatype LikeReply = LikeReply(liked: bool, likeCount: nat)

  /** The upload loop of POST /createPost: the files go to the image store one after the other,
      and the first failure ends the request. */
  method UploadAll(files: seq<Blob>, upload: Blob -> Option<string>) returns (r: Option<seq<string>>)
    ensures r.Some? <==> forall i :: 0 <= i < |files| ==> upload(files[i]).Some?
    ensures r.Some? ==> |r.value| == |files| && forall i :: 0 <= i < |files| ==> upload(files[i]) == Some(r.value[i])
  {
    var urls: seq<string> := [];
    for i := 0 to |files|
      invariant |urls| == i && forall k :: 0 <= k < i ==> upload(files[k]) == Some(urls[k])
    {
      var uploaded := upload(files[i]);
      if uploaded.None? {
        return None;
      }
      urls := urls + [uploaded.value];
    }
    return Some(urls);
  }

  /** The image loop of POST /createPost: one `post_images` row per url, `sort_order` = its
      index, so the post's images are the urls in order. */
  method AddImages(db: Database, id: int, urls: seq<string>)
    requires db.Valid() && HasPost(db.posts, id) && id !in db.images && urls != []
    modifies db`images
    ensures db.Valid() && db.images == old(db.images)[id := urls]
  {
    for i := 0 to |urls|
      invariant db.Valid() && HasPost(db.posts, id)
      invariant db.images == if i == 0 then old(db.images) else old(db.images)[id := urls[..i]]
    {
      assert urls[..i + 1] == urls[..i] + [urls[i]];
      db.InsertImage(id, urls[i]);
    }
    assert urls[..|urls|] == urls;
  }

  /** POST /createPost. The caption is trimmed; the files are checked for presence, then the
      caption for content, then the file count; every file is uploaded (`upload` is the image
      store, None when an upload fails, which the handler answers with 500) before a row is
      written; then the post row and one image row per upload, in submission order, go in. */
  method CreatePost(db: Database, caller: Option<int>, caption: string, files: seq<Blob>,
                    upload: Blob -> Option<string>, now: int) returns (r: Result<FeedPost, Failure>)
    requires db.Valid() && db.clock <= now
    modifies db`posts, db`nextPostId, db`images, db`clock
    ensures db.Valid()
    ensures files == [] ==> r == Err(Failure(400, "At least one image is required"))
    ensures files != [] && IsBlank(caption) ==> r == Err(Failure(400, "Caption cannot be empty"))
    ensures files != [] && !IsBlank(caption) && |files| > 5 ==> r == Err(Failure(400, "Maximum 5 images allowed"))
    ensures 1 <= |files| <= 5 && !IsBlank(caption) && (exists i :: 0 <= i < |files| && upload(files[i]).None?)
            ==> r == Err(Failure(500, "Error creating post"))
    ensures r.Ok? <==> 1 <= |files| <= 5 && !IsBlank(caption) && forall i :: 0 <= i < |files| ==> upload(files[i]).Some?
    ensures r.Err? ==> db.posts == old(db.posts) && db.nextPostId == old(db.nextPostId) && db.images == old(db.images)
    ensures r.Ok? ==> var id := old(db.nextPostId);
                      && id !in old(db.images)
                      && db.posts == old(db.posts) + [Post(id, caller, Trim(caption), now)]
                      && db.nextPostId == id + 1
                      && id in db.images && db.images == old(db.images)[id := db.images[id]]
                      && |db.images[id]| == |files|
                      && (forall i :: 0 <= i < |files| ==> upload(files[i]) == Some(db.images[id][i]))
                      && EnrichedPost(db.posts, db.users, db.images, id) == Some(r.value)
  {
    var text := Trim(caption);
    if |files| == 0 {
      return Err(Failure(400, "At least one image is required"));
    }
    if text == [] {
      return Err(Failure(400, "Caption cannot be empty"));
    }
    if |files| > 5 {
      return Err(Failure(400, "Maximum 5 images allowed"));
    }
    var uploaded := UploadAll(files, upload);
    if uploaded.None? {
      return Err(Failure(500, "Error creating post"));
    }
    var urls := uploaded.value;
    var v := Publish(db, caller, text, urls, now);
    r := Ok(v);
  }

  /** The writes of POST /createPost once every upload succeeded: the post row under the next
      id, then its image rows in order; the answer is the new post as GET /getPosts would show
      it, with no likes and no comments. */
  method Publish(db: Database, caller: Option<int>, text: string, urls: seq<string>, now: int)
    returns (v: FeedPost)
    requires db.Valid() && db.clock <= now && urls != []
    modifies db`posts, db`nextPostId, db`images, db`clock
    ensures db.Valid()
    ensures var id := old(db.nextPostId);
            && id !in old(db.images)
            && db.posts == old(db.posts) + [Post(id, caller, text, now)]
            && db.nextPostId == id + 1
            && db.images == old(db.images)[id := urls]
            && EnrichedPost(db.posts, db.users, db.images, id) == Some(v)
  {
    var post := Post(db.nextPostId, caller, text, now);
    var id := db.InsertPost(caller, text, now);
    assert db.posts[|db.posts| - 1] == post;
    AddImages(db, id, urls);
    assert FindPost(db.posts, id) == Some(post) by {
      IncreasingDistinct(db.posts, PostKey);
    }
    v := FeedPost(Card(post, db.users, db.images), 0, 0, [], false, false);
  }

  /** One pass of the enrichment loop of GET /getPosts: the row's images, its like and comment
      counts, its three latest comments, and (for a truthy caller) the like and save flags. */
  method EnrichPost(post: Post, t: ViewTables, caller: Option<int>) returns (v: FeedPost)
    ensures v == FeedView(post, t, caller)
  {
    var isLiked, isSaved := false, false;
    if Truthy(caller) {
      isLiked := (post.id, caller.value) in t.likes;
      isSaved := HasSave(t.saves, post.id, caller.value);
    }
    var latest := LatestComments(t.comments, post.id);
    v := FeedPost(Card(post, t.users, t.images), LikeCount(t.likes, post.id),
                  |CommentsOf(t.comments, post.id)|, CommentViews(latest, t.users), isLiked, isSaved);
  }

  /** The enrichment loop of GET /getPosts, one element per selected row. */
  method EnrichPosts(rows: seq<Post>, t: ViewTables, caller: Option<int>) returns (r: seq<FeedPost>)
    ensures r == Map(rows, Enrich(t, caller))
  {
    r := [];
    for i := 0 to |rows|
      invariant r == Map(rows[..i], Enrich(t, caller))
    {
      var v := EnrichPost(rows[i], t, caller);
      assert rows[..i + 1][..i] == rows[..i];
      r := r + [v];
    }
    assert rows[..|rows|] == rows;
  }

  /** GET /getPosts?search=term: every post the trimmed term selects, newest first, each with
      its images, counts, latest comments and the caller's like and save flags. */
  method GetPosts(db: Database, caller: Option<int>, search: string) returns (r: seq<FeedPost>)
    requires db.Valid()
    ensures r == Feed(db.posts, TablesOf(db), Trim(search), caller)
    ensures |r| <= |db.posts|
    ensures forall i, j :: 0 <= i < j < |r| ==> r[i].card.createdAt >= r[j].card.createdAt
    ensures !Truthy(caller) ==> forall i :: 0 <= i < |r| ==> !r[i].isLiked && !r[i].isSaved
    ensures IsBlank(search) ==> |r| == |db.posts|
  {
    var rows := SearchPosts(db.posts, db.users, Trim(search));
    var t := TablesOf(db);
    r := EnrichPosts(rows, t, caller);
    assert Ascending(db.posts, PostAt) by {
      assert PostsOk(db.posts, db.nextPostId, db.clock);
    }
    FeedOfSearch(db.posts, t, search, caller, r);
  }

  /** What GET /getPosts promises of the feed for the trimmed term. */
  lemma FeedOfSearch(posts: seq<Post>, t: ViewTables, search: string, caller: Option<int>, r: seq<FeedPost>)
    requires Ascending(posts, PostAt) && r == Map(SearchPosts(posts, t.users, Trim(search)), Enrich(t, caller))
    ensures r == Feed(posts, t, Trim(search), caller)
    ensures |r| <= |posts|
    ensures forall i, j :: 0 <= i < j < |r| ==> r[i].card.createdAt >= r[j].card.createdAt
    ensures !Truthy(caller) ==> forall i :: 0 <= i < |r| ==> !r[i].isLiked && !r[i].isSaved
    ensures IsBlank(search) ==> |r| == |posts|
  {
    FeedSpec(posts, t, Trim(search), caller);
  }

  /** The `user_id` of the post with that id. */
  function OwnerOf(posts: seq<Post>, postId: int): Option<int> {
    match FindPost(posts, postId)
    case None => None
    case Some(p) => p.userId
  }

  /** The handlers' owner test `post.user_id && post.user_id !== caller`: an owner is set and it
      is somebody else. */
  predicate OwnedByOther(owner: Option<int>, caller: int) {
    Truthy(owner) && owner.value != caller
  }

  /** DELETE /posts/:id. An ownerless post (user_id null or 0) may be deleted by anyone; the
      post's images, likes, saves and comments go with it. */
  method DeletePost(db: Database, caller: Option<int>, postId: int) returns (r: Result<(), Failure>)
    requires db.Valid()
    modifies db`posts, db`images, db`likes, db`saves, db`comments
    ensures db.Valid()
    ensures caller.None? ==> r == Err(NoCaller)
    ensures caller.Some? && !HasPost(old(db.posts), postId) ==> r == Err(NoPost)
    ensures caller.Some? && HasPost(old(db.posts), postId) && OwnedByOther(OwnerOf(old(db.posts), postId), caller.value)
            ==> r == Err(Failure(403, "You can only delete your own posts"))
    ensures r.Ok? <==> caller.Some? && HasPost(old(db.posts), postId)
                       && !OwnedByOther(OwnerOf(old(db.posts), postId), caller.value)
    ensures r.Err? ==> && db.posts == old(db.posts) && db.images == old(db.images) && db.likes == old(db.likes)
                       && db.saves == old(db.saves) && db.comments == old(db.comments)
    ensures r.Ok? ==> && db.posts == Where(old(db.posts), Other(PostKey, postId))
                      && |db.posts| == |old(db.posts)| - 1 && !HasPost(db.posts, postId)
                      && db.images == old(db.images) - {postId}
                      && db.likes == LikesOfOthers(old(db.likes), postId)
                      && db.saves == Where(old(db.saves), Other(SavePost, postId))
                      && db.comments == Where(old(db.comments), Other(CommentPost, postId))
  {
    if caller.None? {
      return Err(NoCaller);
    }
    var found := FindPost(db.posts, postId);
    if found.None? {
      return Err(NoPost);
    }
    if OwnedByOther(found.value.userId, caller.value) {
      return Err(Failure(403, "You can only delete your own posts"));
    }
    IncreasingDistinct(db.posts, PostKey);
    assert postId in Keys(db.posts, PostKey);
    DeleteOne(db.posts, PostKey, postId);
    HasPostWhere(db.posts, postId);
    db.DeletePost(postId);
    return Ok(());
  }

  /** The notification text of a like. */
  function LikeMessage(name: string): string {
    name + " liked your post"
  }

  /** POST /posts/:id/like: flips the caller's like of an existing post; a new like of somebody
      else's post notifies its owner. */
  method ToggleLike(db: Database, caller: Option<int>, postId: int, now: int) returns (r: Result<LikeReply, Failure>)
    requires db.Valid() && db.clock <= now
    modifies db`likes, db`notifications, db`nextNotificationId, db`clock
    ensures db.Valid()
    ensures caller.None? ==> r == Err(NoCaller)
    ensures caller.Some? && !HasPost(db.posts, postId) ==> r == Err(NoPost)
    ensures r.Ok? <==> caller.Some? && HasPost(db.posts, postId)
    ensures r.Err? ==> && db.likes == old(db.likes) && db.notifications == old(db.notifications)
                       && db.nextNotificationId == old(db.nextNotificationId)
    ensures r.Ok? ==> && db.likes == Toggled(old(db.likes), (postId, caller.value))
                      && r.value.liked == ((postId, caller.value) !in old(db.likes))
                      && r.value.likeCount == LikeCount(db.likes, postId)
    ensures r.Ok? ==> var owner := OwnerOf(db.posts, postId);
                      if r.value.liked && OwnedByOther(owner, caller.value) then
                        && db.notifications == old(db.notifications)
                             + [Notification(old(db.nextNotificationId), owner.value, LikeNotice,
                                             LikeMessage(ActorName(db.users, caller.value)), false, now)]
                        && db.nextNotificationId == old(db.nextNotificationId) + 1
                      else
                        db.notifications == old(db.notifications) && db.nextNotificationId == old(db.nextNotificationId)
  {
    if caller.None? {
      return Err(NoCaller);
    }
    var found := FindPost(db.posts, postId);
    if found.None? {
      return Err(NoPost);
    }
    var user := caller.value;
    var liked;
    if (postId, user) in db.likes {
      db.DeleteLike(postId, user);
      liked := false;
    } else {
      db.InsertLike(postId, user);
      liked := true;
      var owner := found.value.userId;
      if OwnedByOther(owner, user) {
        db.Notify(owner.value, LikeNotice, LikeMessage(ActorName(db.users, user)), now);
      }
    }
    r := Ok(LikeReply(liked, LikeCount(db.likes, postId)));
  }

  /** GET /posts/:id/comments: the post's comments with their authors, oldest first (an absent
      post has none). */
  method GetComments(db: Database, postId: int) returns (r: seq<CommentView>)
    requires db.Valid()
    ensures r == CommentViews(CommentsOf(db.comments, postId), db.users)
    ensures forall i, j :: 0 <= i < j < |r| ==> r[i].createdAt <= r[j].createdAt
    ensures !HasPost(db.posts, postId) ==> r == []
  {
    var rows := CommentsOf(db.comments, postId);
    WhereAscending(db.comments, OnPost(postId), CommentAt);
    r := CommentViews(rows, db.users);
    assert forall i, j :: 0 <= i < j < |r| ==> r[i].createdAt == CommentAt(rows[i]) && r[j].createdAt == CommentAt(rows[j]);
    if !HasPost(db.posts, postId) {
      assert forall i :: 0 <= i < |db.comments| ==> !OnPost(postId)(db.comments[i]);
      WhereNone(db.comments, OnPost(postId));
    }
  }

  /** The quoted preview of a comment in its notification: the text itself, or its first 30
      characters and an ellipsis when it is longer than 30. */
  function Preview(text: string): (r: string)
    ensures |text| <= 30 ==> r == text
    ensures |text| > 30 ==> |r| == 33 && r[..30] == text[..30] && r[30..] == "..."
  {
    if |text| > 30 then Prefix(text, 30) + "..." else text
  }

  /** The notification text of a comment. */
  function CommentMessage(name: string, text: string): string {
    name + " commented: \"" + Preview(text) + "\""
  }

  /** POST /posts/:id/comments: stores the trimmed text under the next comment id and answers
      the new comment with its author; a comment on somebody else's post notifies its owner. */
  method AddComment(db: Database, caller: Option<int>, postId: int, text: string, now: int)
    returns (r: Result<CommentView, Failure>)
    requires db.Valid() && db.clock <= now
    modifies db`comments, db`nextCommentId, db`notifications, db`nextNotificationId, db`clock
    ensures db.Valid()
    ensures caller.None? ==> r == Err(NoCaller)
    ensures caller.Some? && IsBlank(text) ==> r == Err(Failure(400, "Comment text cannot be empty"))
    ensures caller.Some? && !IsBlank(text) && !HasPost(db.posts, postId) ==> r == Err(NoPost)
    ensures r.Ok? <==> caller.Some? && !IsBlank(text) && HasPost(db.posts, postId)
    ensures r.Err? ==> && db.comments == old(db.comments) && db.nextCommentId == old(db.nextCommentId)
                       && db.notifications == old(db.notifications)
                       && db.nextNotificationId == old(db.nextNotificationId)
    ensures r.Ok? ==> var c := Comment(old(db.nextCommentId), postId, caller.value, Trim(text), now);
                      && db.comments == old(db.comments) + [c]
                      && db.nextCommentId == old(db.nextCommentId) + 1
                      && r.value == CommentViewOf(c, db.users)
    ensures r.Ok? ==> var owner := OwnerOf(db.posts, postId);
                      if OwnedByOther(owner, caller.value) then
                        && db.notifications == old(db.notifications)
                             + [Notification(old(db.nextNotificationId), owner.value, CommentNotice,
                                             CommentMessage(ActorName(db.users, caller.value), Trim(text)), false, now)]
                        && db.nextNotificationId == old(db.nextNotificationId) + 1
                      else
                        db.notifications == old(db.notifications) && db.nextNotificationId == old(db.nextNotificationId)
  {
    if caller.None? {
      return Err(NoCaller);
    }
    var body := Trim(text);
    if body == [] {
      return Err(Failure(400, "Comment text cannot be empty"));
    }
    var found := FindPost(db.posts, postId);
    if found.None? {
      return Err(NoPost);
    }
    var user := caller.value;
    var c := Comment(db.nextCommentId, postId, user, body, now);
    TrimTrimmed(text);
    var id := db.InsertComment(postId, user, body, now);
    r := Ok(CommentViewOf(c, db.users));
    var owner := found.value.userId;
    if OwnedByOther(owner, user) {
      db.Notify(owner.value, CommentNotice, CommentMessage(ActorName(db.users, user), body), now);
    }
  }

  /** DELETE /comments/:id: only the comment's author may delete it; posts' owners have no say. */
  method DeleteComment(db: Database, caller: Option<int>, commentId: int) returns (r: Result<(), Failure>)
    requires db.Valid()
    modifies db`comments
    ensures db.Valid()
    ensures caller.None? ==> r == Err(NoCaller)
    ensures caller.Some? && FindComment(old(db.comments), commentId).None? ==> r == Err(Failure(404, "Comment not found"))
    ensures caller.Some? && FindComment(old(db.comments), commentId).Some?
            && FindComment(old(db.comments), commentId).value.userId != caller.value
            ==> r == Err(Failure(403, "You can only delete your own comments"))
    ensures r.Ok? <==> caller.Some? && FindComment(old(db.comments), commentId).Some?
                       && FindComment(old(db.comments), commentId).value.userId == caller.value
    ensures r.Err? ==> db.comments == old(db.comments)
    ensures r.Ok? ==> && db.comments == Where(old(db.comments), Other(CommentKey, commentId))
                      && |db.comments| == |old(db.comments)| - 1
                      && commentId !in Keys(db.comments, CommentKey)
  {
    if caller.None? {
      return Err(NoCaller);
    }
    var found := FindComment(db.comments, commentId);
    if found.None? {
      return Err(Failure(404, "Comment not found"));
    }
    if found.value.userId != caller.value {
      return Err(Failure(403, "You can only delete your own comments"));
    }
    IncreasingDistinct(db.comments, CommentKey);
    DeleteOne(db.comments, CommentKey, commentId);
    KeysRemove(db.comments, commentId, CommentKey);
    db.DeleteComment(commentId);
    return Ok(());
  }

  /** POST /posts/:id/save: flips the caller's bookmark of an existing post. It never notifies. */
  method ToggleSave(db: Database, caller: Option<int>, postId: int, now: int) returns (r: Result<bool, Failure>)
    requires db.Valid() && db.clock <= now
    modifies db`saves, db`clock
    ensures db.Valid()
    ensures caller.None? ==> r == Err(NoCaller)
    ensures caller.Some? && !HasPost(db.posts, postId) ==> r == Err(NoPost)
    ensures r.Ok? <==> caller.Some? && HasPost(db.posts, postId)
    ensures r.Err? ==> db.saves == old(db.saves)
    ensures r.Ok? ==> && Keys(db.saves, SaveKey) == Toggled(Keys(old(db.saves), SaveKey), (postId, caller.value))
                      && r.value == !HasSave(old(db.saves), postId, caller.value)
                      && r.value == HasSave(db.saves, postId, caller.value)
    ensures r.Ok? && r.value ==> db.saves == old(db.saves) + [Save(postId, caller.value, now)]
    ensures r.Ok? && !r.value ==> db.saves == Where(old(db.saves), Other(SaveKey, (postId, caller.value)))
    ensures db.notifications == old(db.notifications)
  {
    if caller.None? {
      return Err(NoCaller);
    }
    if !HasPost(db.posts, postId) {
      return Err(NoPost);
    }
    var key := (postId, caller.value);
    SaveKeys(db.saves, postId, caller.value);
    if HasSave(db.saves, postId, caller.value) {
      KeysRemove(db.saves, key, SaveKey);
      db.DeleteSave(postId, caller.value);
      SaveKeys(db.saves, postId, caller.value);
      r := Ok(false);
    } else {
      KeysAppend(db.saves, Save(postId, caller.value, now), SaveKey);
      db.InsertSave(postId, caller.value, now);
      SaveKeys(db.saves, postId, caller.value);
      r := Ok(true);
    }
  }
}
