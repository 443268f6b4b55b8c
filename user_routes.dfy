/**
 * The user endpoints: the profile with its counts, the profile edit, the follow toggle, the
 * follower and following lists, and the saved posts.
 */
module UserRoutes {
  import opened Wrappers
  import opened Text
  import opened Rows
  import opened Schema
  import opened Db
  import opened Views

  const NoCaller := Failure(401, "x-user-id header is required")
  const NoUser := Failure(404, "User not found")

  /** The `user` object of GET /users/:id. */
  datatype Profile = Profile(user: PublicUser, postCount: nat, followerCount: nat,
                             followingCount: nat, isFollowing: bool)

  /** The body of a successful follow toggle. */
  datatype FollowReply = FollowReply(following: bool, followerCount: nat)

  /** One element of the followers or following list: `u.id, u.full_name, u.username, u.bio`. */
  datatype UserSummary = UserSummary(id: int, fullName: string, username: string, bio: string)

  /** `WHERE user_id = ?` on posts, `WHERE following_id = ?` and `WHERE follower_id = ?` on
      follows. */
  function PostBy(id: int): Post -> bool {
    (p: Post) => p.userId == Some(id)
  }

  function FollowerOf(id: int): Follow -> bool {
    (f: Follow) => f.followingId == id
  }

  function FollowedBy(id: int): Follow -> bool {
    (f: Follow) => f.followerId == id
  }

  function FollowerCount(follows: seq<Follow>, id: int): nat {
    Count(follows, FollowerOf(id))
  }

  function FollowingCount(follows: seq<Follow>, id: int): nat {
    Count(follows, FollowedBy(id))
  }

  /** GET /users/:id. `viewer` is the `x-user-id` header when one is sent: the follow flag is
      looked up only for a viewer other than the profile's user. */
  function UserProfile(users: map<int, User>, posts: seq<Post>, follows: seq<Follow>,
                       viewer: Option<int>, id: int): (r: Result<Profile, Failure>)
    ensures r.Err? <==> id !in users
    ensures r.Err? ==> r.error == NoUser
    ensures r.Ok? ==> && r.value.user == PublicUserOf(id, users[id])
                      && r.value.postCount == |Where(posts, PostBy(id))|
                      && r.value.followerCount == |Where(follows, FollowerOf(id))|
                      && r.value.followingCount == |Where(follows, FollowedBy(id))|
                      && (r.value.isFollowing <==> viewer.Some? && viewer.value != id && HasFollow(follows, viewer.value, id))
  {
    if id !in users then Err(NoUser)
    else
      var isFollowing := viewer.Some? && viewer.value != id && HasFollow(follows, viewer.value, id);
      Ok(Profile(PublicUserOf(id, users[id]), Count(posts, PostBy(id)), FollowerCount(follows, id),
                 FollowingCount(follows, id), isFollowing))
  }

  /** The answer never carries a password hash: two tables that differ only in hashes give the
      same profile. */
  lemma UserProfileHidesHash(users: map<int, User>, posts: seq<Post>, follows: seq<Follow>,
                             viewer: Option<int>, id: int, hash: string)
    requires id in users
    ensures UserProfile(users[id := users[id].(passwordHash := hash)], posts, follows, viewer, id)
            == UserProfile(users, posts, follows, viewer, id)
  {
  }

  /* ---------------------------------------------------------------- PUT /users/:id */

  /** The row after `UPDATE users SET ...` with the fields the body supplies (absent ones are
      `undefined` in JavaScript and left out of the SET list), each trimmed. */
  function Edited(u: User, fullName: Option<string>, bio: Option<string>, website: Option<string>): User {
    u.(fullName := if fullName.Some? then Trim(fullName.value) else u.fullName,
       bio := if bio.Some? then Trim(bio.value) else u.bio,
       website := if website.Some? then Trim(website.value) else u.website)
  }

  /** Sending the same edit twice leaves the row as sending it once; the email, username,
      password hash and creation time never change. */
  lemma EditedIdempotent(u: User, fullName: Option<string>, bio: Option<string>, website: Option<string>)
    ensures var e := Edited(u, fullName, bio, website);
            && Edited(e, fullName, bio, website) == e
            && e.email == u.email && e.username == u.username
            && e.passwordHash == u.passwordHash && e.createdAt == u.createdAt
  {
    if fullName.Some? { TrimIdempotent(fullName.value); }
    if bio.Some? { TrimIdempotent(bio.value); }
    if website.Some? { TrimIdempotent(website.value); }
  }

  /** `SELECT * FROM users WHERE id = ?` after the edit, as the handler answers it: the whole
      row, `password_hash` included; nothing when no row has that id. */
  function UpdatedRowAsWritten(users: map<int, User>, id: int): (r: Option<User>)
    ensures r.Some? <==> id in users
    ensures r.Some? ==> r.value.passwordHash == users[id].passwordHash
  {
    if id in users then Some(users[id]) else None
  }

  /** The edit answer as written hands out the stored password hash: changing only the hash of
      the row changes the answer. */
  lemma UpdatedRowExposesHash(users: map<int, User>, id: int, hash: string)
    requires id in users && hash != users[id].passwordHash
    ensures UpdatedRowAsWritten(users[id := users[id].(passwordHash := hash)], id) != UpdatedRowAsWritten(users, id)
  {
    var other := users[id := users[id].(passwordHash := hash)];
    assert UpdatedRowAsWritten(other, id).value.passwordHash == hash;
  }

  /** The edit answer with the columns GET /users/:id and the register route answer. */
  function UpdatedRow(users: map<int, User>, id: int): (r: Option<PublicUser>)
    ensures r.Some? <==> id in users
    ensures r.Some? ==> r.value == PublicUserOf(id, users[id])
  {
    if id in users then Some(PublicUserOf(id, users[id])) else None
  }

  /** The corrected answer does not depend on the stored hash. */
  lemma UpdatedRowHidesHash(users: map<int, User>, id: int, hash: string)
    requires id in users
    ensures UpdatedRow(users[id := users[id].(passwordHash := hash)], id) == UpdatedRow(users, id)
  {
    var other := users[id := users[id].(passwordHash := hash)];
    assert other[id].passwordHash == hash;
  }

  /** PUT /users/:id: only the caller's own profile; at least one of `fullName`, `bio` and
      `website` must be sent. An id with no row updates nothing and answers no user. */
  method UpdateProfile(db: Database, caller: Option<int>, targetId: int, fullName: Option<string>,
                       bio: Option<string>, website: Option<string>) returns (r: Result<Option<PublicUser>, Failure>)
    requires db.Valid()
    modifies db`users
    ensures db.Valid()
    ensures caller.None? ==> r == Err(NoCaller)
    ensures caller.Some? && caller.value != targetId ==> r == Err(Failure(403, "You can only edit your own profile"))
    ensures caller == Some(targetId) && fullName.None? && bio.None? && website.None?
            ==> r == Err(Failure(400, "No fields to update"))
    ensures r.Ok? <==> caller == Some(targetId) && (fullName.Some? || bio.Some? || website.Some?)
    ensures r.Err? ==> db.users == old(db.users)
    ensures r.Ok? ==> && (targetId !in old(db.users) ==> db.users == old(db.users))
                      && (targetId in old(db.users) ==>
                            db.users == old(db.users)[targetId := Edited(old(db.users)[targetId], fullName, bio, website)])
                      && r.value == UpdatedRow(db.users, targetId)
  {
    if caller.None? {
      return Err(NoCaller);
    }
    if targetId != caller.value {
      return Err(Failure(403, "You can only edit your own profile"));
    }
    if fullName.None? && bio.None? && website.None? {
      return Err(Failure(400, "No fields to update"));
    }
    if targetId in db.users {
      db.UpdateUser(targetId, Edited(db.users[targetId], fullName, bio, website));
    }
    r := Ok(UpdatedRow(db.users, targetId));
  }

  /* ---------------------------------------------------------------- follows */

  /** The notification text of a follow. */
  function FollowMessage(name: string): string {
    name + " started following you"
  }

  /** A new follow row raises the followed user's follower count by one; deleting an existing
      one lowers it by one. */
  lemma {:induction false} FollowerCountToggled(follows: seq<Follow>, followerId: int, followingId: int, now: int)
    requires Distinct(follows, FollowKey)
    ensures FollowerCount(follows + [Follow(followerId, followingId, now)], followingId) == FollowerCount(follows, followingId) + 1
    ensures HasFollow(follows, followerId, followingId)
            ==> FollowerCount(Where(follows, Other(FollowKey, (followerId, followingId))), followingId)
                == FollowerCount(follows, followingId) - 1
  {
    CountAppend(follows, Follow(followerId, followingId, now), FollowerOf(followingId));
    var key := (followerId, followingId);
    var doomed := KeyIs(FollowKey, key);
    var both := (f: Follow) => Other(FollowKey, key)(f) && FollowerOf(followingId)(f);
    CountAfterDelete(follows, doomed, Other(FollowKey, key), FollowerOf(followingId), both);
    if HasFollow(follows, followerId, followingId) {
      var i :| 0 <= i < |follows| && follows[i].followerId == followerId && follows[i].followingId == followingId;
      assert doomed(follows[i]);
    }
  }

  /** POST /users/:id/follow: flips the caller's follow of an existing user; a new follow
      notifies the followed user. Following oneself is refused before the user is looked up. */
  method ToggleFollow(db: Database, caller: Option<int>, followingId: int, now: int) returns (r: Result<FollowReply, Failure>)
    requires db.Valid() && db.clock <= now
    modifies db`follows, db`notifications, db`nextNotificationId, db`clock
    ensures db.Valid()
    ensures caller.None? ==> r == Err(NoCaller)
    ensures caller == Some(followingId) ==> r == Err(Failure(400, "You cannot follow yourself"))
    ensures caller.Some? && caller.value != followingId && followingId !in db.users ==> r == Err(NoUser)
    ensures r.Ok? <==> caller.Some? && caller.value != followingId && followingId in db.users
    ensures r.Err? ==> && db.follows == old(db.follows) && db.notifications == old(db.notifications)
                       && db.nextNotificationId == old(db.nextNotificationId)
    ensures r.Ok? ==> var key := (caller.value, followingId);
                      && Keys(db.follows, FollowKey) == Toggled(Keys(old(db.follows), FollowKey), key)
                      && r.value.following == !HasFollow(old(db.follows), caller.value, followingId)
                      && r.value.following == HasFollow(db.follows, caller.value, followingId)
                      && r.value.followerCount == FollowerCount(db.follows, followingId)
                      && r.value.followerCount == FollowerCount(old(db.follows), followingId) + (if r.value.following then 1 else -1)
    ensures r.Ok? && r.value.following ==>
              && db.follows == old(db.follows) + [Follow(caller.value, followingId, now)]
              && db.notifications == old(db.notifications)
                   + [Notification(old(db.nextNotificationId), followingId, FollowNotice,
                                   FollowMessage(ActorName(db.users, caller.value)), false, now)]
              && db.nextNotificationId == old(db.nextNotificationId) + 1
    ensures r.Ok? && !r.value.following ==>
              && db.follows == Where(old(db.follows), Other(FollowKey, (caller.value, followingId)))
              && db.notifications == old(db.notifications) && db.nextNotificationId == old(db.nextNotificationId)
  {
    if caller.None? {
      return Err(NoCaller);
    }
    var followerId := caller.value;
    if followerId == followingId {
      return Err(Failure(400, "You cannot follow yourself"));
    }
    if followingId !in db.users {
      return Err(NoUser);
    }
    var key := (followerId, followingId);
    FollowKeys(db.follows, followerId, followingId);
    FollowerCountToggled(db.follows, followerId, followingId, now);
    var following;
    if HasFollow(db.follows, followerId, followingId) {
      KeysRemove(db.follows, key, FollowKey);
      db.DeleteFollow(followerId, followingId);
      following := false;
    } else {
      KeysAppend(db.follows, Follow(followerId, followingId, now), FollowKey);
      db.InsertFollow(followerId, followingId, now);
      following := true;
      db.Notify(followingId, FollowNotice, FollowMessage(ActorName(db.users, followerId)), now);
    }
    FollowKeys(db.follows, followerId, followingId);
    r := Ok(FollowReply(following, FollowerCount(db.follows, followingId)));
  }

  /* ---------------------------------------------------------------- lists */

  function SummaryOf(id: int, u: User): UserSummary {
    UserSummary(id, u.fullName, u.username, u.bio)
  }

  const FollowerSide := (f: Follow) => f.followerId
  const FollowingSide := (f: Follow) => f.followingId

  /** The `JOIN users u ON <side> = u.id` condition: the user at that end of the edge exists. */
  function Joins(users: map<int, User>, side: Follow -> int): Follow -> bool {
    (f: Follow) => side(f) in users
  }

  /** The summaries of the users at one end of the edges, in edge order, skipping edges whose
      user has no row. */
  function Summaries(edges: seq<Follow>, users: map<int, User>, side: Follow -> int): seq<UserSummary> {
    var kept := Where(edges, Joins(users, side));
    seq(|kept|, i requires 0 <= i < |kept| => SummaryOf(side(kept[i]), users[side(kept[i])]))
  }

  /** The edges of GET /users/:id/followers and GET /users/:id/following, `ORDER BY
      f.created_at DESC`. */
  function FollowerEdges(follows: seq<Follow>, id: int): seq<Follow> {
    Reverse(Where(follows, FollowerOf(id)))
  }

  function FollowingEdges(follows: seq<Follow>, id: int): seq<Follow> {
    Reverse(Where(follows, FollowedBy(id)))
  }

  /** GET /users/:id/followers and GET /users/:id/following. */
  function Followers(follows: seq<Follow>, users: map<int, User>, id: int): (r: seq<UserSummary>)
    ensures |r| <= FollowerCount(follows, id)
  {
    Summaries(FollowerEdges(follows, id), users, FollowerSide)
  }

  function Following(follows: seq<Follow>, users: map<int, User>, id: int): (r: seq<UserSummary>)
    ensures |r| <= FollowingCount(follows, id)
  {
    Summaries(FollowingEdges(follows, id), users, FollowingSide)
  }

  /** The edges of either list hold exactly the matching follow rows. */
  lemma {:induction false} EdgesSpec(follows: seq<Follow>, edge: Follow -> bool)
    ensures var e := Reverse(Where(follows, edge));
            && (forall j :: 0 <= j < |e| ==> e[j] in follows && edge(e[j]))
            && (forall k :: 0 <= k < |follows| && edge(follows[k]) ==> follows[k] in e)
  {
    var w := Where(follows, edge);
    var e := Reverse(w);
    forall j | 0 <= j < |e| ensures e[j] in follows && edge(e[j]) {
      assert e[j] == w[|w| - 1 - j];
    }
    forall k | 0 <= k < |follows| && edge(follows[k]) ensures follows[k] in e {
      var m :| 0 <= m < |w| && w[m] == follows[k];
      assert e[|w| - 1 - m] == w[m];
    }
  }

  /** Either list comes newest follow first. */
  lemma EdgesNewestFirst(follows: seq<Follow>, edge: Follow -> bool)
    requires Ascending(follows, FollowAt)
    ensures Descending(Reverse(Where(follows, edge)), FollowAt)
  {
    WhereAscending(follows, edge, FollowAt);
    ReverseDescending(Where(follows, edge), FollowAt);
  }

  /** The joined summaries hold exactly the users with a row at the given end of some edge,
      each with that row's columns. */
  lemma SummariesSpec(edges: seq<Follow>, users: map<int, User>, side: Follow -> int)
    ensures var r := Summaries(edges, users, side);
            && |r| <= |edges|
            && (forall i :: 0 <= i < |r| ==> r[i].id in users && r[i] == SummaryOf(r[i].id, users[r[i].id])
                                             && exists j :: 0 <= j < |edges| && side(edges[j]) == r[i].id)
            && (forall j :: 0 <= j < |edges| && side(edges[j]) in users ==> exists i :: 0 <= i < |r| && r[i].id == side(edges[j]))
  {
    var kept := Where(edges, Joins(users, side));
    var r := Summaries(edges, users, side);
    forall i | 0 <= i < |r| ensures exists j :: 0 <= j < |edges| && side(edges[j]) == r[i].id {
      var j :| 0 <= j < |edges| && edges[j] == kept[i];
    }
    forall j | 0 <= j < |edges| && side(edges[j]) in users ensures exists i :: 0 <= i < |r| && r[i].id == side(edges[j]) {
      assert Joins(users, side)(edges[j]);
      var i :| 0 <= i < |kept| && kept[i] == edges[j];
      assert r[i].id == side(kept[i]);
    }
  }

  /** Everybody on the followers list follows the user and has a row, shown with that row's
      columns. */
  lemma FollowersSound(follows: seq<Follow>, users: map<int, User>, id: int)
    ensures var r := Followers(follows, users, id);
            forall i :: 0 <= i < |r| ==> && r[i].id in users && r[i] == SummaryOf(r[i].id, users[r[i].id])
                                         && HasFollow(follows, r[i].id, id)
  {
    var edges := FollowerEdges(follows, id);
    var r := Followers(follows, users, id);
    EdgesSpec(follows, FollowerOf(id));
    SummariesSpec(edges, users, FollowerSide);
    forall i | 0 <= i < |r| ensures HasFollow(follows, r[i].id, id) {
      var j :| 0 <= j < |edges| && FollowerSide(edges[j]) == r[i].id;
      assert FollowerOf(id)(edges[j]);
      var k :| 0 <= k < |follows| && follows[k] == edges[j];
    }
  }

  /** Every follower that has a row is on the followers list. */
  lemma FollowersComplete(follows: seq<Follow>, users: map<int, User>, id: int)
    ensures var r := Followers(follows, users, id);
            forall k :: 0 <= k < |follows| && follows[k].followingId == id && follows[k].followerId in users
                        ==> exists i :: 0 <= i < |r| && r[i].id == follows[k].followerId
  {
    var edges := FollowerEdges(follows, id);
    var r := Followers(follows, users, id);
    EdgesSpec(follows, FollowerOf(id));
    SummariesSpec(edges, users, FollowerSide);
    forall k | 0 <= k < |follows| && follows[k].followingId == id && follows[k].followerId in users
      ensures exists i :: 0 <= i < |r| && r[i].id == follows[k].followerId
    {
      assert FollowerOf(id)(follows[k]);
      var j :| 0 <= j < |edges| && edges[j] == follows[k];
      assert FollowerSide(edges[j]) in users;
    }
  }

  /** Likewise the following list: everybody on it is followed by the user and has a row. */
  lemma FollowingSound(follows: seq<Follow>, users: map<int, User>, id: int)
    ensures var r := Following(follows, users, id);
            forall i :: 0 <= i < |r| ==> && r[i].id in users && r[i] == SummaryOf(r[i].id, users[r[i].id])
                                         && HasFollow(follows, id, r[i].id)
  {
    var edges := FollowingEdges(follows, id);
    var r := Following(follows, users, id);
    EdgesSpec(follows, FollowedBy(id));
    SummariesSpec(edges, users, FollowingSide);
    forall i | 0 <= i < |r| ensures HasFollow(follows, id, r[i].id) {
      var j :| 0 <= j < |edges| && FollowingSide(edges[j]) == r[i].id;
      assert FollowedBy(id)(edges[j]);
      var k :| 0 <= k < |follows| && follows[k] == edges[j];
    }
  }

  /** Every followed user that has a row is on the following list. */
  lemma FollowingComplete(follows: seq<Follow>, users: map<int, User>, id: int)
    ensures var r := Following(follows, users, id);
            forall k :: 0 <= k < |follows| && follows[k].followerId == id && follows[k].followingId in users
                        ==> exists i :: 0 <= i < |r| && r[i].id == follows[k].followingId
  {
    var edges := FollowingEdges(follows, id);
    var r := Following(follows, users, id);
    EdgesSpec(follows, FollowedBy(id));
    SummariesSpec(edges, users, FollowingSide);
    forall k | 0 <= k < |follows| && follows[k].followerId == id && follows[k].followingId in users
      ensures exists i :: 0 <= i < |r| && r[i].id == follows[k].followingId
    {
      assert FollowedBy(id)(follows[k]);
      var j :| 0 <= j < |edges| && edges[j] == follows[k];
      assert FollowingSide(edges[j]) in users;
    }
  }

  /** Joining an edge list with one more edge in front adds that edge's user in front, when
      the user has a row. */
  lemma SummariesCons(f: Follow, edges: seq<Follow>, users: map<int, User>, side: Follow -> int)
    ensures Summaries([f] + edges, users, side)
            == (if side(f) in users then [SummaryOf(side(f), users[side(f)])] else []) + Summaries(edges, users, side)
  {
    assert ([f] + edges)[1..] == edges;
    var kept := Where(edges, Joins(users, side));
    assert Where([f] + edges, Joins(users, side)) == (if side(f) in users then [f] else []) + kept;
  }

  /** A new follow by a user with a row puts that user at the head of the followers list. */
  lemma FollowersAfterFollow(follows: seq<Follow>, users: map<int, User>, followerId: int, id: int, now: int)
    requires followerId in users
    ensures Followers(follows + [Follow(followerId, id, now)], users, id)
            == [SummaryOf(followerId, users[followerId])] + Followers(follows, users, id)
  {
    var f := Follow(followerId, id, now);
    var w := Where(follows, FollowerOf(id));
    WhereAppend(follows, [f], FollowerOf(id));
    assert Where([f], FollowerOf(id)) == [f] + Where([f][1..], FollowerOf(id));
    assert Where(follows + [f], FollowerOf(id)) == w + [f];
    assert Reverse(w + [f]) == [f] + Reverse(w);
    SummariesCons(f, Reverse(w), users, FollowerSide);
  }

  /* ---------------------------------------------------------------- saved posts */

  /** GET /users/:id/saved: the user's saved posts, newest save first, each with its images
      and counts and marked saved. */
  method SavedPosts(db: Database, userId: int) returns (r: seq<SavedPost>)
    requires db.Valid()
    ensures var rows := SavedRows(db.saves, db.posts, userId);
            |r| == |rows| && forall i :: 0 <= i < |rows| ==> r[i] == SavedView(rows[i], TablesOf(db))
    ensures |r| == |Where(db.saves, SavedByUser(userId))|
    ensures forall i :: 0 <= i < |r| ==> r[i].isSaved && HasSave(db.saves, r[i].card.id, userId)
  {
    var rows := SavedRows(db.saves, db.posts, userId);
    r := SavedViews(rows, TablesOf(db));
    SavedRowsSpec(db.saves, db.posts, userId);
  }

  /** The enrichment loop of GET /users/:id/saved: each row with its images and counts. */
  method SavedViews(rows: seq<Post>, t: ViewTables) returns (r: seq<SavedPost>)
    ensures |r| == |rows| && forall i :: 0 <= i < |rows| ==> r[i] == SavedView(rows[i], t)
  {
    r := [];
    for i := 0 to |rows|
      invariant |r| == i && forall k :: 0 <= k < i ==> r[k] == SavedView(rows[k], t)
    {
      var post := rows[i];
      r := r + [SavedPost(Card(post, t.users, t.images), LikeCount(t.likes, post.id),
                          |CommentsOf(t.comments, post.id)|, true)];
    }
  }

  /** With every save pointing at a stored post (the foreign key), the saved rows are the
      user's saves, one post each. */
  lemma SavedRowsSpec(saves: seq<Save>, posts: seq<Post>, userId: int)
    requires forall i :: 0 <= i < |saves| ==> HasPost(posts, saves[i].postId)
    ensures var rows := SavedRows(saves, posts, userId);
            && |rows| == |Where(saves, SavedByUser(userId))|
            && forall i :: 0 <= i < |rows| ==> rows[i] in posts && HasSave(saves, rows[i].id, userId)
  {
    var w := Where(saves, SavedByUser(userId));
    var mine := SavesOfUser(saves, userId);
    forall i | 0 <= i < |mine| ensures HasPost(posts, mine[i].postId) && mine[i] in saves && mine[i].userId == userId {
      assert mine[i] == w[|w| - 1 - i];
      assert SavedByUser(userId)(w[|w| - 1 - i]);
    }
    var rows := SavedRows(saves, posts, userId);
    forall i | 0 <= i < |rows| ensures HasSave(saves, rows[i].id, userId) {
      var k :| 0 <= k < |saves| && saves[k] == mine[i];
    }
  }
}
