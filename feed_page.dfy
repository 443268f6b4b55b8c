/**
 * The feed page: the relative time shown on a post, the like toggle the page keeps for
 * itself (it is never sent to the server), the like count shown beside it and the subtitle
 * over the feed.
 */
module FeedPage {
  import opened Text

  const MinuteMs := 60000
  const HourMs := 3600000
  const DayMs := 86400000

  /** `getTimeAgo`, given `now - postDate` in milliseconds: whole minutes are taken with
      `Math.floor`, then whole hours of those minutes, then whole days of those hours. Divisions
      by a positive number round down, as `Math.floor` does, also for a negative difference. */
  function TimeAgo(diffMs: int): (r: string)
    ensures diffMs < MinuteMs ==> r == "Just now"
    ensures MinuteMs <= diffMs < HourMs ==> r == NatToString(diffMs / MinuteMs) + "m ago"
    ensures HourMs <= diffMs < DayMs ==> r == NatToString(diffMs / HourMs) + "h ago"
    ensures DayMs <= diffMs ==> r == NatToString(diffMs / DayMs) + "d ago"
  {
    var diffMins := diffMs / 60000;
    if diffMins < 1 then "Just now"
    else if diffMins < 60 then NatToString(diffMins) + "m ago"
    else
      var diffHrs := diffMins / 60;
      HoursOfMinutes(diffMs);
      if diffHrs < 24 then NatToString(diffHrs) + "h ago"
      else
        DaysOfHours(diffMs);
        NatToString(diffHrs / 24) + "d ago"
  }

  /** Whole hours of whole minutes are the whole hours of the milliseconds. */
  lemma HoursOfMinutes(ms: int)
    ensures ms / 60000 / 60 == ms / 3600000
  {
  }

  /** Whole days of whole hours of whole minutes are the whole days of the milliseconds. */
  lemma DaysOfHours(ms: int)
    ensures ms / 60000 / 60 / 24 == ms / 86400000
  {
    HoursOfMinutes(ms);
  }

  /** The label's number reads back as the number of whole units elapsed, and it is never
      zero: a post less than a minute old says "Just now". */
  lemma TimeAgoMinutes(diffMs: int)
    requires MinuteMs <= diffMs < HourMs
    ensures var r := TimeAgo(diffMs);
            && r[|r| - 5..] == "m ago"
            && ParseDigits(r[..|r| - 5]) == diffMs / MinuteMs
            && 1 <= diffMs / MinuteMs < 60
  {
    var r := TimeAgo(diffMs);
    var n := NatToString(diffMs / MinuteMs);
    assert r[..|r| - 5] == n;
    ParseNatToString(diffMs / MinuteMs);
  }

  /** Whether the page shows a post as liked: `likedPosts[post.id]`, a missing entry being
      falsy. */
  function LikedLocally(liked: map<int, bool>, postId: int): bool {
    postId in liked && liked[postId]
  }

  /** `toggleLike`: the entry for the post becomes `!prev[postId]`, every other entry stays. */
  function ToggleLike(liked: map<int, bool>, postId: int): (r: map<int, bool>)
    ensures LikedLocally(r, postId) == !LikedLocally(liked, postId)
    ensures forall q :: q != postId ==> (q in r <==> q in liked) && (q in r ==> r[q] == liked[q])
    ensures postId in r
  {
    liked[postId := !LikedLocally(liked, postId)]
  }

  /** Toggling twice restores how every post is shown, though a post with no entry before now
      has an entry `false`. */
  lemma ToggleLikeTwice(liked: map<int, bool>, postId: int, q: int)
    ensures LikedLocally(ToggleLike(ToggleLike(liked, postId), postId), q) == LikedLocally(liked, q)
  {
  }

  /** The count beside the heart: the server's count plus one when the page shows the post as
      liked. */
  function DisplayedLikes(serverLikes: int, liked: map<int, bool>, postId: int): (r: int)
    ensures r == serverLikes || r == serverLikes + 1
    ensures r == serverLikes + 1 <==> LikedLocally(liked, postId)
  {
    serverLikes + (if LikedLocally(liked, postId) then 1 else 0)
  }

  /** A toggle moves the shown count of its post by exactly one, up for a like, and no other
      post's shown count. */
  lemma DisplayedLikesToggled(serverLikes: int, liked: map<int, bool>, postId: int, q: int)
    ensures DisplayedLikes(serverLikes, ToggleLike(liked, postId), postId)
            == if LikedLocally(liked, postId) then serverLikes else serverLikes + 1
    ensures q != postId ==> DisplayedLikes(serverLikes, ToggleLike(liked, postId), q)
                            == DisplayedLikes(serverLikes, liked, q)
  {
  }

  /** The line under the feed's title. */
  function Subtitle(postCount: nat): (r: string)
    ensures postCount == 0 ==> r == "No posts yet \U{2014} be the first to share!"
    ensures postCount == 1 ==> r == "1 post shared"
    ensures postCount > 1 ==> r == NatToString(postCount) + " posts shared"
  {
    if postCount > 0 then NatToString(postCount) + " post" + (if postCount > 1 then "s" else "") + " shared"
    else "No posts yet \U{2014} be the first to share!"
  }

  /** The empty-state line starts with a letter; a count line starts with the count's digits
      followed by a space. */
  lemma SubtitleShape(n: nat)
    ensures n == 0 ==> Subtitle(n)[0] == 'N'
    ensures n > 0 ==> var d := NatToString(n);
                      && Subtitle(n)[..|d|] == d && |Subtitle(n)| > |d| && Subtitle(n)[|d|] == ' '
                      && forall i :: 0 <= i < |d| ==> IsDigit(Subtitle(n)[i])
  {
    if n > 0 {
      var d := NatToString(n);
      assert Subtitle(n) == d + (if n > 1 then " posts shared" else " post shared");
    }
  }

  /** The subtitle tells the number of posts: two counts never show the same line. */
  lemma SubtitleInjective(m: nat, n: nat)
    requires Subtitle(m) == Subtitle(n)
    ensures m == n
  {
    SubtitleShape(m);
    SubtitleShape(n);
    assert (m == 0) == (n == 0) by {
      assert IsDigit(NatToString(m)[0]) || m == 0;
    }
    if m > 0 {
      var sm := NatToString(m);
      var sn := NatToString(n);
      assert |sm| == |sn|;
      NatToStringInjective(m, n);
    }
  }
}
