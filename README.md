# Social platform backend and pages, modelled in Dafny

This project models the core of a small photo-sharing site. The model covers:

- the Express route handlers for posts, users, accounts and notifications;
- the checks the sign-in page runs before it sends a form;
- the small computations of the feed page.

The MySQL tables are the fields of one `Database` object (module `Db`), with one field per table:

- `users` is a map from id to row;
- `posts`, `saved_posts`, `post_comments`, `follows` and `notifications` are sequences in insertion order;
- `post_likes` is a set of (post, user) pairs;
- `post_images` is a map from a post to its ordered URLs.

The AUTO_INCREMENT counters are fields too. A ghost `clock` holds the latest `CURRENT_TIMESTAMP` written. The predicate `Schema.StoreOk` is the invariant of the eight tables. From the DDL it takes:

- the AUTO_INCREMENT primary keys;
- the UNIQUE keys on likes, saves, follows and username;
- the foreign keys to `posts`, with ON DELETE CASCADE.

It adds invariants that only the handlers keep, since MySQL would accept rows that break them:

- e-mail addresses are unique, as the register check ensures (`AuthRoutes.RegisterChecks`); the `users` DDL has no UNIQUE on `email`;
- e-mail and username are stored normalised (trimmed and lower case);
- comment text is stored trimmed and non-empty;
- nobody follows themselves;
- stamps never decrease along a table.

A statement method's `requires` states what MySQL would refuse (a duplicate key, a missing parent row), plus what the calling handler has already established for the handler-kept invariants above.

Every SQL statement a handler runs is a method of `Database`. Each such method keeps `Valid()` and leaves the tables as a named transition of the old ones says.

The handlers themselves are methods in one module per route file:

- `PostRoutes`, `UserRoutes`, `AuthRoutes`, `NotificationRoutes`;
- each runs its checks in the handler's order and reports the status and message the handler sends;
- each states the new contents of every table it writes.

Read-only queries and projections are functions, in `Views` and in the route modules. Their properties are proved as lemmas:

- result membership;
- ordering (`ORDER BY created_at DESC` is the reverse of insertion order);
- the three-comment preview;
- counts after a toggle;
- "nothing else changes".

The two pages are `AuthPage` and `FeedPage`:

- `AuthPage.AuthForm` is the sign-in component's state, with `validateForm`, `handleChange` and `switchMode` as methods;
- `FeedPage` holds `getTimeAgo`, the local like toggle, the shown like count and the subtitle.

Support modules:

- `Wrappers`: `Option` and `Result`.
- `Text`: JavaScript's `trim`, ASCII `toLowerCase`/`toUpperCase`, substring search and decimal printing.
- `Rows`: SQL `WHERE`, `COUNT`, `LIMIT` and reversal over sequences, with their lemmas.

Inputs that the handlers get from outside become parameters:

- the caller's `x-user-id` is an `Option<int>`;
- request fields are strings, with a missing field as `""`;
- profile edits are `Option` fields, since that handler tests `!== undefined`;
- the timestamp `now` is a parameter;
- the upload service is a function `Blob -> Option<string>`;
- bcrypt's hash is a parameter and its compare a function `(string, string) -> bool`.

## Model

| member | source | states |
|---|---|---|
| Db.Database.constructor | Backend/server.js:21-42 | A fresh database has empty tables and every counter at 1, and satisfies the schema. |
| Db.Database.InsertUser | Backend/src/routes/auth.routes.js:67-70 | The account goes in under the next id, which no row had, and the unique e-mail and username constraints keep holding. |
| Db.Database.UpdateUser | Backend/src/routes/user.routes.js:111-112 | The row's name, bio and website take the edited values; its e-mail, username, hash and stamp stay, so the schema keeps holding. |
| Db.UserInsertedOk | Backend/src/Models/User.model.js:6-14 | Adding a row whose normalised e-mail and username are unused keeps ids, uniqueness and normal forms of `users`. |
| Db.UserInserted | Backend/src/routes/auth.routes.js:67-70 | The users keyed by the old ids plus the next id; the new row sits under the next id and every old row is kept. The counter moves on by one and no other table changes. |
| Db.UserUpdatedOk | Backend/src/Models/User.model.js:6-14 | Changing a row's name, bio and website keeps the `users` constraints. |
| Db.UserUpdated | Backend/src/routes/user.routes.js:111-112 | The same ids; the edited row keeps its e-mail, username, hash and stamp; every other row is kept and no other table changes. |
| Db.Database.InsertPost | Backend/src/routes/post.routes.js:59-63 | The post row goes in under the next id, with the caller (or none) as owner. That id has no images yet. |
| Db.PostInsertedOk | Backend/src/Models/Post.model.js:6-10 | Appending a post under the next id with the latest stamp keeps ids increasing and stamps in order. |
| Db.PostInserted | Backend/src/routes/post.routes.js:59-63 | A post exists afterwards exactly when it existed before or has the next id. The counter moves on by one, the clock is the insert time, and no other table changes. |
| Db.FreshPostHasNoImages | Backend/src/routes/post.routes.js:63-71 | The id the next post will get has no image list. |
| Db.Database.InsertImage | Backend/src/routes/post.routes.js:66-71 | The URL is appended to the post's image list, which is the next `sort_order`. |
| Db.ImageInsertedOk | Backend/src/routes/post.routes.js:66-71 | Adding an image to an existing post keeps every image list attached to an existing post. |
| Db.ImageInserted | Backend/src/routes/post.routes.js:66-71 | The post's image list gains the URL at its end; every other post's list is unchanged and no other table changes. |
| Db.Database.DeletePost | Backend/src/routes/post.routes.js:211 | Deleting a post removes its row and, by ON DELETE CASCADE, its images, likes, saves and comments. |
| Db.PostDeletedCascade | Backend/src/Models/Comment.model.js:12 | After the delete, no table holds a reference to the post, and every row of another post is still there. |
| Db.PostDeletedOk | Backend/src/Models/Like.model.js:6-13 | The cascade keeps every table constraint, foreign keys included. |
| Db.PostDeleted | Backend/src/routes/post.routes.js:211 | A post exists afterwards exactly when it existed before and is not the deleted one. Only the posts table and the cascading tables change. |
| Db.Database.InsertLike | Backend/src/routes/post.routes.js:247-250 | The (post, user) pair is added to the likes. |
| Db.Database.DeleteLike | Backend/src/routes/post.routes.js:241-244 | The (post, user) pair is removed from the likes. |
| Db.LikesSetOk | Backend/src/Models/Like.model.js:11-12 | New likes only name existing posts, so the foreign key holds. |
| Db.LikesSet | Backend/src/routes/post.routes.js:240-251 | The likes become the given set and no other table changes. |
| Db.Database.InsertSave | Backend/src/routes/post.routes.js:422-425 | The save row is appended when the pair is not yet saved. The UNIQUE key and the stamp order hold. |
| Db.SaveInsertedOk | Backend/src/Models/SavedPost.model.js:6-13 | Appending an unsaved pair of an existing post keeps the UNIQUE key, the foreign key and stamp order. |
| Db.SaveInserted | Backend/src/routes/post.routes.js:422-425 | The save keys gain the (post, user) pair, the clock is the insert time, and no other table changes. |
| Db.Database.DeleteSave | Backend/src/routes/post.routes.js:416-419 | The pair's save row is removed. |
| Db.SaveDeletedOk | Backend/src/Models/SavedPost.model.js:6-13 | Removing a save keeps the `saved_posts` constraints. |
| Db.SaveDeleted | Backend/src/routes/post.routes.js:416-419 | The save keys lose exactly the (post, user) pair and no other table changes. |
| Db.Database.InsertComment | Backend/src/routes/post.routes.js:328-331 | The trimmed, non-empty comment is appended under the next id. |
| Db.CommentInsertedOk | Backend/src/Models/Comment.model.js:6-13 | Appending a comment of an existing post keeps ids, the foreign key and stamp order. |
| Db.CommentInserted | Backend/src/routes/post.routes.js:328-331 | The comment ids gain the next id. The counter moves on by one, the clock is the insert time, and no other table changes. |
| Db.Database.DeleteComment | Backend/src/routes/post.routes.js:388 | The comment with that id is removed. |
| Db.CommentDeletedOk | Backend/src/Models/Comment.model.js:6-13 | Removing a comment keeps the `post_comments` constraints. |
| Db.CommentDeleted | Backend/src/routes/post.routes.js:388 | The comment ids lose exactly that id and no other table changes. |
| Db.Database.InsertFollow | Backend/src/routes/user.routes.js:158-161 | The edge is appended when it is new and not a self-follow. |
| Db.FollowInsertedOk | Backend/src/Models/Follow.model.js:6-12 | Appending a new edge keeps the UNIQUE key on (follower, following). |
| Db.FollowInserted | Backend/src/routes/user.routes.js:158-161 | The edge keys gain the (follower, following) pair, the clock is the insert time, and no other table changes. |
| Db.Database.DeleteFollow | Backend/src/routes/user.routes.js:152-155 | The edge is removed. |
| Db.FollowDeletedOk | Backend/src/Models/Follow.model.js:6-12 | Removing an edge keeps the `follows` constraints. |
| Db.FollowDeleted | Backend/src/routes/user.routes.js:152-155 | The edge keys lose exactly the pair and no other table changes. |
| Db.Database.Notify | Backend/src/routes/post.routes.js:259-262 | An unread notification is appended under the next id. |
| Db.NotifiedOk | Backend/src/Models/Notification.model.js:6-13 | Appending a notification keeps ids increasing and stamps in order. |
| Db.Notified | Backend/src/routes/post.routes.js:259-262 | One row more, under the next id, with every old row kept in place. The counter moves on by one, the clock is the insert time, and no other table changes. |
| Db.Database.MarkAllRead | Backend/src/routes/notification.routes.js:41-44 | The loop marks exactly the user's rows read, in place. |
| Db.NotificationsReadOk | Backend/src/Models/Notification.model.js:6-13 | Marking rows read keeps the `notifications` constraints. |
| Db.NotificationsRead | Backend/src/routes/notification.routes.js:41-44 | Same number of rows; every row of the user is read afterwards; no other table changes. |
| Db.Later | Backend/src/Models/Post.model.js:10 | Moving the clock forward keeps every stamp at or below it. |
| Db.Database.DropComments | Backend/src/Models/Comment.model.js:12 | The cascade step on `post_comments`: exactly the comments of other posts stay, and no other table changes. |
| Db.Database.DropSaves | Backend/src/Models/SavedPost.model.js:12 | The cascade step on `saved_posts`: exactly the saves of other posts stay. |
| Db.Database.DropLikes | Backend/src/Models/Like.model.js:12 | The cascade step on `post_likes`: exactly the likes of other posts stay. |
| Db.Database.DropImages | Backend/src/routes/post.routes.js:211 | The cascade step on the post's images: its image list is gone. |
| Db.Database.DropPostRow | Backend/src/routes/post.routes.js:211 | The `posts` row with that id is gone and the others stay in order. |
| Schema.StoreOk | Backend/server.js:21-42 | The invariant of all eight tables; under it the AUTO_INCREMENT counters lie past every stored id, so the next user id is unused and every post id is below the next one. |
| Rows.Where | Backend/src/routes/post.routes.js:120 | `WHERE`: no more rows than the table; only rows of the table that pass; every passing row kept. |
| Rows.Limit | Backend/src/routes/notification.routes.js:14 | `LIMIT n`: a prefix of length `min(n, rows)`. |
| Rows.ReverseDescending | Backend/src/routes/post.routes.js:121 | Reading a table whose stamps ascend backwards gives the `ORDER BY created_at DESC` order. |
| Rows.LatestInOrder | Backend/src/routes/post.routes.js:158-180 | Newest first, keep `n`, reversed again gives the last `n` rows in table order. |
| Rows.First | Backend/src/routes/post.routes.js:202 | The first row of a `WHERE` exists exactly when some row passes, and it is a passing row. |
| Rows.KeysAppend | Backend/src/Models/SavedPost.model.js:11 | An insert adds exactly the new row's key to the keys a UNIQUE KEY sees. |
| Rows.KeysRemove | Backend/src/Models/SavedPost.model.js:11 | `DELETE ... WHERE key = k` removes exactly the key `k` from the keys. |
| Rows.Toggled | Backend/src/routes/post.routes.js:240-251 | Toggling flips the element's membership and keeps every other element. |
| Rows.ToggledTwice | Backend/src/routes/post.routes.js:240-251 | Two toggles of one pair restore the set. |
| Text.TrimStart | Backend/src/routes/post.routes.js:316 | A suffix whose first character is not white space, with only white space cut before it. |
| Text.TrimEnd | Backend/src/routes/post.routes.js:316 | A prefix whose last character is not white space, with only white space cut after it. |
| Text.TrimmedIff | Backend/src/routes/post.routes.js:316 | Trimming leaves a string alone exactly when its ends are not white space. |
| Text.TrimTrimmed | Backend/src/routes/post.routes.js:316 | A trimmed string has no white space at either end. |
| Text.NormalizeNormalized | Backend/src/routes/auth.routes.js:23-24 | `trim().toLowerCase()` yields a trimmed lower-case string, which is what the stored columns hold. |
| Schema.KindName | Backend/src/Models/Notification.model.js:9 | A kind is stored as one of the three ENUM labels. |
| Schema.FindPost | Backend/src/routes/post.routes.js:202-205 | The `SELECT * FROM posts WHERE id = ?` lookup finds a post exactly when one has that id. |
| Schema.FindComment | Backend/src/routes/post.routes.js:377-383 | A comment is found exactly when one has that id. |
| Schema.ActorName | Backend/src/routes/post.routes.js:255-258 | The actor's full name, or "Someone" when the actor has no row. |
| Schema.SaveKeys | Backend/src/routes/post.routes.js:409-415 | The existence check for a save matches the pair's presence among the save keys. |
| Schema.FollowKeys | Backend/src/routes/user.routes.js:145-151 | The existence check for an edge matches its presence among the edge keys. |
| Schema.HasPostAppend | Backend/src/routes/post.routes.js:59-63 | After an insert, the existing posts are the old ones plus the new id. |
| Schema.HasPostWhere | Backend/src/routes/post.routes.js:211 | After the delete, the existing posts are the old ones minus that id. |
| Schema.ImagesOf | Backend/src/routes/post.routes.js:129-132 | A post with no image rows has an empty URL list. |
| Text.TrimIsCentralPiece | Backend/src/routes/post.routes.js:38 | `trim()` keeps a contiguous middle piece and cuts only white space on either side. |
| Text.BlankIffAllSpace | Backend/src/routes/post.routes.js:44-46 | `!s.trim()` holds exactly when every character is white space. |
| Text.TrimIdempotent | Backend/src/routes/user.routes.js:94-105 | Trimming twice is trimming once. |
| Text.TrimLowerCommute | Backend/src/routes/auth.routes.js:22-24 | Lower-casing and trimming commute. |
| Text.LowerIdempotent | Backend/src/routes/auth.routes.js:23-24 | Lower-casing an already lower-cased string changes nothing. |
| Text.NormalizeIdempotent | Backend/src/routes/auth.routes.js:22-24 | `trim().toLowerCase()` is idempotent, so a stored address is its own key. |
| Text.NormalizedIff | Backend/src/routes/auth.routes.js:22-24 | A string is its own normal form exactly when it is trimmed and lower case. |
| Text.Contains | Backend/src/routes/post.routes.js:99-103 | The `%term%` containment test holds exactly when `t` occurs at some index of `s`. |
| Text.Prefix | Backend/src/routes/post.routes.js:351 | `substring(0, n)` is the first `n` characters, or all of a shorter string. |
| Text.NatToString | frontend/src/Pages/Feed.jsx:23 | A number prints as a non-empty run of digits with no leading zero. |
| Text.ParseNatToString | frontend/src/Pages/Feed.jsx:23-27 | The printed digits read back as the number. |
| Text.NatToStringInjective | frontend/src/Pages/Feed.jsx:36 | Distinct numbers print differently. |
| Views.OrElse | Backend/src/routes/post.routes.js:173-174 | `v \|\| fallback`: either the fallback or a non-empty value that was given; never empty when the fallback is not. |
| Views.Initial | Backend/src/routes/post.routes.js:175 | The avatar is one character. |
| Views.AuthorOf | Backend/src/routes/post.routes.js:118-119 | The LEFT JOIN finds the author row exactly when the post has an owner with a row. |
| Views.FirstImage | Backend/src/routes/post.routes.js:176 | `imageUrls[0] \|\| null` gives the first URL when it is a non-empty string. |
| Views.Card | Backend/src/routes/post.routes.js:164-177 | The card keeps the post's id, owner, caption and stamp, plus its images in order. It has a non-empty author and username and an upper-cased one-letter avatar taken from the author shown. |
| Views.CardFallbacks | Backend/src/routes/post.routes.js:173-174 | "User" and "user" are shown exactly when the author has no row or an empty (or literally equal) name. Otherwise the row's values are shown. |
| Views.CommentViewOf | Backend/src/routes/post.routes.js:152-157 | A comment view keeps the comment's id, text, stamp and author id. It has an author name exactly when the author has a row. |
| Views.LatestComments | Backend/src/routes/post.routes.js:151-162 | Three comments, or all of the post's comments when it has fewer; each is a comment of that post. |
| Views.CommentsOf | Backend/src/routes/post.routes.js:289-297 | Exactly the post's comments. |
| Views.LatestCommentsAreLastThree | Backend/src/routes/post.routes.js:151-162 | `ORDER BY created_at DESC LIMIT 3` followed by `reverse()` gives the post's last three (or fewer) comments. |
| Views.LatestCommentsAscending | Backend/src/routes/post.routes.js:180 | The preview comments are in chronological order. |
| Views.LikeCountToggled | Backend/src/routes/post.routes.js:267-270 | After a toggle, the post's like count is one lower when the like was there and one higher otherwise. |
| Views.LikeCountToggledOthers | Backend/src/routes/post.routes.js:267-270 | A toggle leaves every other post's like count unchanged. |
| Views.LikeCount | Backend/src/routes/post.routes.js:116 | The count is zero exactly when no user likes the post. |
| Views.FeedView | Backend/src/routes/post.routes.js:128-184 | A feed element has the card, the like count, the total comment count and the last three comments. An anonymous caller never sees liked or saved. |
| Views.SearchPostsSpec | Backend/src/routes/post.routes.js:99-123 | The query returns exactly the matching posts, newest first. An empty term returns all posts in reverse order. |
| Views.SearchPosts | Backend/src/routes/post.routes.js:99-123 | No more rows than the table; each one a stored post that matches the term. |
| Views.Feed | Backend/src/routes/post.routes.js:127-184 | One enriched element per selected post, in the query's order. |
| Views.FeedSpec | Backend/src/routes/post.routes.js:92-188 | The feed is newest first and has no more posts than the table. Anonymous callers see nothing liked or saved. An empty search returns every post. |
| Views.EnrichedPost | Backend/src/routes/post.routes.js:439-478 | `getEnrichedPost` returns a value exactly when the post exists. The value has the post's card and images, zero counts and no comments. |
| Views.SavesOfUserSpec | Backend/src/routes/user.routes.js:254-267 | Exactly the user's saves, newest first. |
| Views.JoinPosts | Backend/src/routes/user.routes.js:254-262 | The join with `posts` gives one post per save, in the save order, when every save names an existing post. |
| PostRoutes.UploadAll | Backend/src/routes/post.routes.js:52-57 | All uploads succeed exactly when the result is a URL list, and each URL is what its file's upload gave. |
| PostRoutes.AddImages | Backend/src/routes/post.routes.js:66-71 | The loop leaves the new post's image list equal to the URLs in order, and changes no other post's images. |
| PostRoutes.CreatePost | Backend/src/routes/post.routes.js:32-86 | The checks run in order: no files gives 400, a blank caption 400, more than five files 400, a failed upload 500. Otherwise the post gets the next id and the trimmed caption, and its images are exactly the uploaded URLs in order. The answer is the enriched new post. Nothing is written on an error. |
| PostRoutes.Publish | Backend/src/routes/post.routes.js:58-74 | After every upload succeeds: the post row goes in under the next id, the new post's images are exactly the URLs in order, no other post's images change, and the answer is what the single-post lookup shows for the new id. |
| PostRoutes.EnrichPost | Backend/src/routes/post.routes.js:128-183 | One pass of the loop yields exactly the feed view of the row for that caller: the like and save flags are set only for a truthy caller. |
| PostRoutes.EnrichPosts | Backend/src/routes/post.routes.js:127-184 | The loop's result is the feed view of each row, in the rows' order and nothing else. |
| Rows.Map | Backend/src/routes/post.routes.js:127-184 | Mapping keeps the length of the sequence. |
| Rows.MapAt | Backend/src/routes/post.routes.js:127-184 | Element `i` of the mapped sequence is the function applied to element `i`. |
| Rows.ReverseTake | Backend/src/routes/post.routes.js:158-180 | The first `k` rows of the reversed sequence are the last `k` rows, reversed. |
| Rows.ReverseReverse | Backend/src/routes/post.routes.js:158-180 | Reversing twice gives back the sequence. |
| PostRoutes.GetPosts | Backend/src/routes/post.routes.js:92-193 | The answer is the feed of the trimmed search term. It is newest first, has no liked or saved flags for an anonymous caller, and holds every post when the term is blank. |
| PostRoutes.FeedOfSearch | Backend/src/routes/post.routes.js:92-193 | The enriched search result over an ascending posts table is newest first, no longer than the table, flag-free for an anonymous caller, and every post for a blank term. |
| PostRoutes.DeletePost | Backend/src/routes/post.routes.js:198-217 | Without a caller: 401. With no such post: 404. For a post owned by another user: 403; a post without an owner may be deleted by anyone. Otherwise the row and all its dependent rows are gone. |
| PostRoutes.ToggleLike | Backend/src/routes/post.routes.js:222-280 | Gives 401 or 404, otherwise flips the pair's membership in the likes. `liked` is the negated prior membership and the count is the new count. On a new like of another user's post, the owner gets one "liked your post" notification; there is none otherwise. |
| PostRoutes.GetComments | Backend/src/routes/post.routes.js:285-306 | The post's comments, oldest first; none for a missing post. |
| PostRoutes.Preview | Backend/src/routes/post.routes.js:351 | A text of up to 30 characters is kept whole. A longer one becomes its first 30 characters and "...". |
| PostRoutes.AddComment | Backend/src/routes/post.routes.js:312-368 | Gives 401, then 400 for a blank text, then 404. Otherwise the trimmed comment is appended under the next id. A post owned by another user gets its owner one "commented" notification with the preview. |
| PostRoutes.DeleteComment | Backend/src/routes/post.routes.js:373-394 | Gives 401, then 404, then 403 for another user's comment. Otherwise exactly that comment is removed. |
| PostRoutes.ToggleSave | Backend/src/routes/post.routes.js:399-434 | Gives 401 or 404, otherwise flips the pair among the saves. `saved` is the negated prior state and equals the new state. No notification is ever added. |
| UserRoutes.UserProfile | Backend/src/routes/user.routes.js:20-75 | 404 exactly for an unknown id. Otherwise the row without its hash, the post, follower and following counts, and `isFollowing` for a different viewer who follows the user. |
| UserRoutes.UserProfileHidesHash | Backend/src/routes/user.routes.js:56-70 | The profile answer does not depend on the password hash. |
| UserRoutes.EditedIdempotent | Backend/src/routes/user.routes.js:89-112 | Applying the same trimmed edit twice is applying it once. E-mail, username, hash and stamp are untouched. |
| UserRoutes.UpdatedRowAsWritten | Backend/src/routes/user.routes.js:114-118 | As written, the answer of the edit is the whole `SELECT *` row, hash included. |
| UserRoutes.UpdatedRowExposesHash | Backend/src/routes/user.routes.js:114-118 | For every stored row and every other hash, the as-written answers of the row and of the row with that hash differ, so the answer carries the hash. |
| UserRoutes.UpdatedRow | Backend/src/routes/user.routes.js:114-118 | Corrected answer: the row without its hash, present exactly when the row is. |
| UserRoutes.UpdatedRowHidesHash | Backend/src/routes/user.routes.js:114-118 | The corrected answer does not depend on the hash. |
| UserRoutes.UpdateProfile | Backend/src/routes/user.routes.js:81-123 | Gives 401, then 403 for another user's profile, then 400 when no field is given. Otherwise each given field is trimmed and written, nothing else changes, and the answer is the edited row without its hash. |
| UserRoutes.FollowerCountToggled | Backend/src/routes/user.routes.js:178-181 | A new edge adds one to the followed user's follower count; removing an existing edge subtracts one. |
| UserRoutes.ToggleFollow | Backend/src/routes/user.routes.js:128-195 | Gives 401, then 400 for a self-follow, then 404 for an unknown user. Otherwise the edge is flipped. `following` is the new state and the follower count moves by exactly one. A follow, and only a follow, notifies the followed user. |
| UserRoutes.EdgesSpec | Backend/src/routes/user.routes.js:204-211 | The edge list contains exactly the selected edges. |
| UserRoutes.EdgesNewestFirst | Backend/src/routes/user.routes.js:210 | The edge list is newest first. |
| UserRoutes.SummariesSpec | Backend/src/routes/user.routes.js:204-209 | Each summary is the hash-free row of an edge's user. Every edge whose user has a row is listed. |
| UserRoutes.FollowersSound | Backend/src/routes/user.routes.js:200-220 | Each listed follower has a row and follows the user. |
| UserRoutes.FollowersComplete | Backend/src/routes/user.routes.js:200-220 | Every follower with a row is listed. |
| UserRoutes.FollowingSound | Backend/src/routes/user.routes.js:225-245 | Each listed user has a row and is followed by the user. |
| UserRoutes.FollowingComplete | Backend/src/routes/user.routes.js:225-245 | Every followed user with a row is listed. |
| UserRoutes.Followers | Backend/src/routes/user.routes.js:204-211 | No more rows than the follower count the profile shows. |
| UserRoutes.Following | Backend/src/routes/user.routes.js:229-236 | No more rows than the following count the profile shows. |
| UserRoutes.SummariesCons | Backend/src/routes/user.routes.js:204-209 | The join drops edges whose user has no row and keeps the others in order. |
| UserRoutes.FollowersAfterFollow | Backend/src/routes/user.routes.js:158-161 | After a follow, the new follower heads the follower list and the rest is unchanged. |
| UserRoutes.SavedViews | Backend/src/routes/user.routes.js:271-294 | The loop builds one saved element per joined row. |
| UserRoutes.SavedRowsSpec | Backend/src/routes/user.routes.js:254-267 | With the foreign key, there is one joined post per save of the user, each an existing post the user saved. |
| UserRoutes.SavedPosts | Backend/src/routes/user.routes.js:250-301 | One element per save of the user, each marked saved and naming a post the user saved. |
| AuthRoutes.EmailShapedOneAt | Backend/src/routes/auth.routes.js:27 | An address passing the anchored test holds exactly one at sign. |
| AuthRoutes.EmailShapedExamples | Backend/src/routes/auth.routes.js:27 | "ann@x.io" passes; a missing dot, a space or a second at sign fails. |
| AuthRoutes.EmailNotShapedTwoAts | Backend/src/routes/auth.routes.js:27 | Two at signs always fail the test. |
| AuthRoutes.EmailShaped | Backend/src/routes/auth.routes.js:27 | An address that passes has at least five characters and an at sign. |
| AuthRoutes.UsernameShaped | Backend/src/routes/auth.routes.js:32 | A username that passes `[a-z0-9_]{3,30}` is its own normal form, so storing it normalised keeps it. |
| AuthRoutes.Missing | Backend/src/routes/auth.routes.js:18 | A field is missing exactly when the name, the username or the e-mail is all white space or the password is empty. |
| AuthRoutes.NewAccount | Backend/src/routes/auth.routes.js:67-69 | The new row holds a trimmed name, which is non-empty for a non-blank name, the normalised username and e-mail, the hash, empty bio and website and the insert time. |
| AuthRoutes.RegisterChecks | Backend/src/routes/auth.routes.js:18-61 | There is no error exactly when all fields are present, the e-mail and username pass their tests, the password has at least six characters, and both are unused. Errors are 400 or 409. A taken e-mail reported after valid formats gives its own 409 message. |
| AuthRoutes.Register | Backend/src/routes/auth.routes.js:13-86 | Errors leave `users` unchanged. Success adds exactly one row, under the next id, and moves the counter past it; the row has the trimmed name, the normalised username and e-mail, the hash and empty bio and website. The answer is that row without its hash. |
| AuthRoutes.Login | Backend/src/routes/auth.routes.js:93-131 | Gives 400 for a missing e-mail, then a missing password, then 404 when no row has the address, then 401 when the compare rejects. Success happens exactly when the normalised address has a row whose hash the password passes, and answers that row without its hash. |
| AuthRoutes.OnlyAccountWithEmail | Backend/src/routes/auth.routes.js:45-52 | An account inserted under an email that no existing account has is then the only account with that email. |
| AuthRoutes.RegisterThenLogin | Backend/src/routes/auth.routes.js:67-126 | After a registration, logging in with the same password and the address in any case or padding finds exactly the new account. |
| NotificationRoutes.GetNotifications | Backend/src/routes/notification.routes.js:9-31 | At most 50 rows, all the user's own. `unread_count` counts the user's unread rows over the whole table. |
| NotificationRoutes.InboxIsLatest | Backend/src/routes/notification.routes.js:13-16 | The page is the user's newest 50 (or fewer) rows. |
| NotificationRoutes.InboxNewestFirst | Backend/src/routes/notification.routes.js:14 | The page is newest first. |
| NotificationRoutes.UnreadAtMostOwn | Backend/src/routes/notification.routes.js:18-21 | The unread count never exceeds the user's rows. |
| NotificationRoutes.UnreadNotCapped | Backend/src/routes/notification.routes.js:18-26 | With 51 unread rows, the page holds 50 and the count is 51. |
| NotificationRoutes.MarkAllRead | Backend/src/routes/notification.routes.js:37-51 | The user's rows are marked read. |
| NotificationRoutes.MarkedReadOnlyFlag | Backend/src/routes/notification.routes.js:41-44 | Only `is_read` changes: it is set on every row of the user, and other users' rows are untouched. |
| NotificationRoutes.MarkedReadIdempotent | Backend/src/routes/notification.routes.js:41-44 | Marking twice is marking once. |
| NotificationRoutes.NothingUnreadAfterMarking | Backend/src/routes/notification.routes.js:42 | Afterwards the user's unread count is 0. |
| NotificationRoutes.UnreadOfOthersKept | Backend/src/routes/notification.routes.js:42 | Every other user's unread count is unchanged. |
| AuthPage.WithField | frontend/src/Pages/Auth.jsx:22-29 | `{...prev, [name]: value}` replaces that field and keeps the others. |
| AuthPage.AuthForm.constructor | frontend/src/Pages/Auth.jsx:8-20 | The page starts in sign-in mode with an empty form and no banners. |
| AuthPage.AuthForm.HandleChange | frontend/src/Pages/Auth.jsx:22-29 | The field takes the value and both banners clear. |
| AuthPage.AuthForm.SwitchMode | frontend/src/Pages/Auth.jsx:123-135 | The mode flips, the form empties, the banners clear and the password is hidden. |
| AuthPage.FormProblem | frontend/src/Pages/Auth.jsx:31-61 | There is no problem exactly when the sign-up fields are non-blank (sign-up only), the e-mail is non-blank and matches, the password has six or more characters and the confirmation matches (sign-up only). The problem is one of the seven messages. |
| AuthPage.AuthForm.ValidateForm | frontend/src/Pages/Auth.jsx:31-61 | Answers true exactly when there is no problem. Otherwise the first failing check's message is set; the banner is untouched on success. |
| AuthPage.LoginIgnoresSignupFields | frontend/src/Pages/Auth.jsx:32-39 | Sign-in validation ignores the name, username and confirmation. |
| AuthPage.EmptyFormProblems | frontend/src/Pages/Auth.jsx:32-43 | An empty sign-up form reports the name; an empty sign-in form reports the e-mail. |
| AuthPage.MismatchReported | frontend/src/Pages/Auth.jsx:56-59 | A form whose only fault is the confirmation fails sign-up with "Passwords do not match" and passes sign-in. |
| AuthPage.FrontendAdmitsServerEmails | frontend/src/Pages/Auth.jsx:44-47 | Every address the server accepts once normalised, the page accepts as typed. |
| AuthPage.ServerStricterThanFrontend | frontend/src/Pages/Auth.jsx:44 | The page accepts "a n@x.io", which the server refuses. |
| AuthPage.ShapedIsLoose | frontend/src/Pages/Auth.jsx:44 | The server's anchored test implies the page's unanchored one. |
| AuthPage.LooseEmailUnlowered | frontend/src/Pages/Auth.jsx:44 | Lower-casing neither creates nor removes a match. |
| AuthPage.LooseEmailWithin | frontend/src/Pages/Auth.jsx:44 | A match inside a piece of the text is a match in the text. |
| AuthPage.LooseEmail | frontend/src/Pages/Auth.jsx:44 | A match has at least five characters and an at sign. |
| AuthPage.SessionUserOf | frontend/src/Pages/Auth.jsx:79-86 | The stored user copies the server's id, name, username, e-mail and bio, and has a one-character avatar. |
| AuthPage.AvatarSpec | frontend/src/Pages/Auth.jsx:79-86 | The avatar is the upper-cased first character of the name, or "U"; it is never a lower-case letter. |
| AuthPage.AvatarOfRegistered | frontend/src/Pages/Auth.jsx:100-107 | After sign-up, the avatar is the upper-cased first non-space character typed as the name. |
| AuthPage.InitialOfTrimmed | frontend/src/Pages/Auth.jsx:100-107 | The initial of a trimmed non-blank name is the upper-cased first non-space character of the name as typed. |
| FeedPage.TimeAgo | frontend/src/Pages/Feed.jsx:16-28 | Under a minute, including negative differences: "Just now". Otherwise the whole minutes, hours or days elapsed, each below its next unit. |
| FeedPage.HoursOfMinutes | frontend/src/Pages/Feed.jsx:20-24 | Whole hours of whole minutes are the whole hours. |
| FeedPage.DaysOfHours | frontend/src/Pages/Feed.jsx:20-26 | Whole days of whole hours are the whole days. |
| FeedPage.TimeAgoMinutes | frontend/src/Pages/Feed.jsx:22-23 | The label ends in "m ago" and its number reads back as the minutes, between 1 and 59. |
| FeedPage.ToggleLike | frontend/src/Pages/Feed.jsx:9-14 | Flips how the post shows, a missing entry being false, and keeps every other entry. |
| FeedPage.ToggleLikeTwice | frontend/src/Pages/Feed.jsx:9-14 | Two toggles restore how every post shows. |
| FeedPage.DisplayedLikes | frontend/src/Pages/Feed.jsx:79 | The server's count, plus one exactly when the post shows liked. |
| FeedPage.DisplayedLikesToggled | frontend/src/Pages/Feed.jsx:75-79 | A toggle moves its post's shown count by one and no other post's count. |
| FeedPage.Subtitle | frontend/src/Pages/Feed.jsx:35-37 | The empty-state text for 0, "1 post shared", and "n posts shared" above one. |
| FeedPage.SubtitleShape | frontend/src/Pages/Feed.jsx:35-37 | The line starts with the count's digits and a space, or with the empty-state text. |
| FeedPage.SubtitleInjective | frontend/src/Pages/Feed.jsx:35-37 | Different post counts show different lines. |

## Left out

- The HTTP layer is not modelled: the Express app, routing, CORS, the logger, the startup sequence and the response envelope (`Backend/src/app.js`, `Backend/server.js`, `Backend/src/db/db.js`). A handler's answer is a `Result` holding the payload or a (status, message) failure. The `error` detail that `sendError` attaches is dropped.
- The MySQL connection is not modelled; the tables are object fields. The 500 answers a failing query would produce are not modelled. Neither is the partial state a `createPost` leaves when an image insert fails after the post insert.
- Concurrency is out: requests run one after another, so the races between two simultaneous toggles are not modelled. The lack of transactions is out for the same reason.
- `x-user-id` parsing is not modelled. `parseInt` and its NaN cases become a caller of type `Option<int>`, and truthiness means present and non-zero. On GET `/users/:id`, the raw header string is tested for truthiness, so any present header counts there.
- Non-string request fields are not modelled: a body field that is a number or an object would make `.trim()` throw and the handler answer 500.
- bcrypt is not modelled. The hash is a parameter of `Register`, and the compare is a function parameter of `Login` that `RegisterThenLogin` assumes accepts the password it hashed.
- The image service (`Backend/src/Services/Storage.services.js`) is a function parameter that may fail.
- SQL `LIKE` is plain substring containment. The collation's case-insensitivity and the `%`/`_` wildcards inside a search term are not modelled.
- MySQL's case-insensitive comparison of e-mail addresses is not modelled. Addresses are compared exactly after the handler's own `trim().toLowerCase()`, which is what the register check relies on.
- Case mapping is ASCII-only: `toLowerCase` and `toUpperCase` beyond A-Z are not modelled.
- String lengths count characters, not UTF-16 code units. This matters for the password's six characters and the comment's 30-character preview.
- VARCHAR length limits are not modelled; MySQL would reject or truncate an over-long string.
- Timestamps are integers written by a clock that never goes back. `ORDER BY created_at DESC` with ties is modelled as one valid order: the reverse of insertion.
- `CreatePost`: multer's `maxCount` of 5 makes the "Maximum 5 images allowed" branch unreachable in the running server; the model keeps the branch as written.
- The `post_images` table's DDL is not part of this model, so its layout follows what the routes write and read. Post.model.js is stale (no owner column, no `post_images`); the posts table follows the routes.
- User.model.js is stale: it has no password column and no UNIQUE on e-mail. The model stores the hash the routes write, and e-mail uniqueness holds through the register check.
- `Schema.ImagesOk` is weaker than the table's contents. It only requires image lists to belong to existing posts, because the handler inserts the images one by one after the post row.
- `Db.Database.DeletePost`: the cascade runs as five one-table steps inside one statement method, not as one atomic change.
- The feed page's rendering, navigation and CSS classes are not modelled. The sign-in page's requests, `localStorage` writes, `loading` flag and one-second redirect timer are not modelled either.
- UserRoutes.UpdateProfile: the answer is modelled as the corrected hash-free row `UserRoutes.UpdatedRow`; the code as written answers `UserRoutes.UpdatedRowAsWritten`, which holds the hash.
- AuthPage.SessionUserOf: `bio || ''` is the bio itself, because the server's answer always holds a string there.

## Findings

| source | as written | input that shows it | evidently intended | confidence | as-written member | corrected member |
|---|---|---|---|---|---|---|
| Backend/src/routes/user.routes.js:114-118 | PUT `/users/:id` answers with `SELECT *` of the edited row, so the password hash is sent to the client. | A user edits their own bio; the answer includes `password`. Replacing any stored row's hash changes the answer. | Answer the row without the hash, as register, login and GET `/users/:id` do. | not executed | UserRoutes.UpdatedRowAsWritten, UserRoutes.UpdatedRowExposesHash | UserRoutes.UpdatedRow, UserRoutes.UpdatedRowHidesHash |
