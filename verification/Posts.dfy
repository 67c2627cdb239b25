/**
 The producers of LoadPosts: what one channel's loop sends. Clock readings and draws are inputs; a draw d stands
 for rand.Int63n(n) == d % n, so that every result of the source's generator is some draw's.
 */
module Posts {
  import opened Collections

  const SECOND := 1_000_000_000
  const GROUP := 100

  /** The id, clock readings and draws used up by one turn of the inner loop. */
  datatype Draws = Draws(id: string, now: int, back: nat, reply: bool, root: nat, later: int, forward: nat)

  /** One channel's loop: its number, the number of users of the team, the configured time range and the draws. */
  datatype Setup = Setup(channelNum: nat, numUsers: nat, timeRange: int, draws: nat -> Draws)

  /** A line for the Posts table; the parent is None where the source writes an empty string. */
  datatype Post = Post(id: string, createAt: int, user: nat, channel: nat, parent: Option<string>)

  datatype RootPost = RootPost(id: string, created: int)

  /** randomTime, in nanoseconds; None where Int63n panics. */
  function RandomTime(now: int, after: Option<int>, timeRange: int, draw: nat): (r: Option<int>)
    ensures after.Some? ==> (r.Some? <==> after.value < now)
    ensures after.Some? && r.Some? ==> after.value <= r.value < now
    ensures after.None? ==> (r.Some? <==> timeRange > 0)
    ensures after.None? && r.Some? ==> now - timeRange * SECOND < r.value <= now
  {
    match after
    case None =>
      if timeRange <= 0 then None
      else
        assert (draw % timeRange + 1) * SECOND <= timeRange * SECOND;
        Some(now - draw % timeRange * SECOND)
    case Some(a) => if now - a <= 0 then None else Some(a + draw % (now - a))
  }

  /** now.Unix() * 1000: the milliseconds of the whole second that t is in. */
  function CreateAt(t: int): (ms: int)
    ensures ms % 1000 == 0 && ms * 1_000_000 <= t < (ms + 1000) * 1_000_000
  {
    t / SECOND * 1000
  }

  /** The number of posts a channel gets for numPostsPerChannel == n. */
  function PostsMade(n: nat): (posts: nat)
    ensures n <= posts < n + 100 && posts % 100 == 0
  {
    GROUP * ((n + GROUP - 1) / GROUP)
  }

  // ---------------------------------------------------------------- post k, without the loop

  predicate IsReply(s: Setup, k: nat) {
    k % GROUP != 0 && s.draws(k).reply
  }

  /** The position of the root post that post k answers, if it is a reply. */
  function RootPosition(s: Setup, k: nat): (r: nat)
    ensures r <= k && r % GROUP == 0
  {
    GROUP * (s.draws(k).root % (k / GROUP + 1))
  }

  /** Each moment from the root post up to now is the result of exactly one draw below the difference. */
  lemma EachMomentOnce(now: int, root: int, timeRange: int, t: int) returns (draw: nat)
    requires root <= t < now
    ensures draw < now - root && RandomTime(now, Some(root), timeRange, draw) == Some(t)
    ensures forall d: nat :: d < now - root && RandomTime(now, Some(root), timeRange, d) == Some(t) ==> d == draw
  {
    draw := t - root;
    SmallRemainders(now - root);
  }

  /** Without a root post, each whole number of seconds below the range is taken back by exactly one draw below it. */
  lemma EachSecondOnce(now: int, timeRange: int, seconds: nat) returns (draw: nat)
    requires seconds < timeRange
    ensures draw < timeRange && RandomTime(now, None, timeRange, draw) == Some(now - seconds * 1_000_000_000)
    ensures forall d: nat :: d < timeRange && RandomTime(now, None, timeRange, d) == Some(now - seconds * 1_000_000_000) ==> d == draw
  {
    draw := seconds;
    SmallRemainders(timeRange);
  }

  lemma SmallRemainders(n: nat)
    ensures forall d: nat :: d < n ==> d % n == d
  {
  }

  /** Each root post sent before is answered for exactly one draw below their number. */
  lemma EachRootOnce(s: Setup, k: nat, h: nat)
    requires s.draws(k).root <= k / 100 && h <= k / 100
    ensures RootPosition(s, k) == 100 * h <==> s.draws(k).root == h
  {
    SmallRemainders(k / GROUP + 1);
  }

  function FirstTime(s: Setup, k: nat): Option<int> {
    RandomTime(s.draws(k).now, None, s.timeRange, s.draws(k).back)
  }

  function TimeOf(s: Setup, k: nat): Option<int> {
    if !IsReply(s, k) then FirstTime(s, k)
    else
      var root := FirstTime(s, RootPosition(s, k));
      if root.None? then None else RandomTime(s.draws(k).later, root, s.timeRange, s.draws(k).forward)
  }

  /** When the root post that a reply k answers was created, in nanoseconds, from the draws alone. */
  function RootTime(s: Setup, k: nat): int
    requires s.timeRange > 0
  {
    var root := s.draws(100 * (s.draws(k).root % (k / 100 + 1)));
    root.now - root.back % s.timeRange * 1_000_000_000
  }

  /** Post k is not made: no user, no time range, or the clock has not passed its root. */
  predicate Fails(s: Setup, k: nat) {
    || s.numUsers == 0
    || s.timeRange <= 0
    || (IsReply(s, k) && s.draws(k).later <= FirstTime(s, RootPosition(s, k)).value)
  }

  function PostAt(s: Setup, k: nat): Post
    requires !Fails(s, k)
  {
    Post(s.draws(k).id, CreateAt(TimeOf(s, k).value), (k + s.channelNum) % s.numUsers, s.channelNum,
         if IsReply(s, k) then Some(s.draws(RootPosition(s, k)).id) else None)
  }

  /** Post k is a reply, and the clock reading for it has not passed its root post. */
  predicate TooLate(s: Setup, k: nat)
    requires s.timeRange > 0
  {
    k % 100 != 0 && s.draws(k).reply && s.draws(k).later <= RootTime(s, k)
  }

  lemma FailsExactly(s: Setup, numPosts: nat)
    ensures (exists k: nat :: k < PostsMade(numPosts) && Fails(s, k)) <==>
              numPosts > 0 && (|| s.numUsers == 0
                               || s.timeRange <= 0
                               || exists k: nat :: k < PostsMade(numPosts) && TooLate(s, k))
  {
    if s.numUsers == 0 || s.timeRange <= 0 {
      assert Fails(s, 0);
    } else {
      forall k: nat ensures Fails(s, k) <==> TooLate(s, k) {
      }
    }
  }

  // ---------------------------------------------------------------- the loop

  /** The posts of one channel. */
  ghost predicate IsChannel(s: Setup, posts: seq<Post>) {
    forall k :: 0 <= k < |posts| ==> !Fails(s, k) && posts[k] == PostAt(s, k)
  }

  lemma NoPosts(s: Setup)
    ensures IsChannel(s, [])
  {
  }

  lemma OneMorePost(s: Setup, posts: seq<Post>, post: Post)
    requires IsChannel(s, posts) && !Fails(s, |posts|) && post == PostAt(s, |posts|)
    ensures IsChannel(s, posts + [post])
  {
  }

  lemma NoneFail(s: Setup, posts: seq<Post>)
    requires IsChannel(s, posts)
    ensures forall k :: 0 <= k < |posts| ==> !Fails(s, k)
  {
  }

  lemma NotMade(s: Setup, k: nat)
    requires s.numUsers == 0 || s.timeRange <= 0
    ensures Fails(s, k)
  {
  }

  lemma PlainPost(s: Setup, k: nat, now: int)
    requires s.numUsers > 0 && !IsReply(s, k) && FirstTime(s, k) == Some(now)
    ensures !Fails(s, k)
    ensures PostAt(s, k) == Post(s.draws(k).id, CreateAt(now), (k + s.channelNum) % s.numUsers, s.channelNum, None)
  {
  }

  lemma ReplyPost(s: Setup, k: nat, r: RootPost)
    requires s.numUsers > 0 && s.timeRange > 0 && IsReply(s, k) && RootAt(s, r, s.draws(k).root % (k / GROUP + 1))
    ensures var d := s.draws(k);
            var now := RandomTime(d.later, Some(r.created), s.timeRange, d.forward);
            && (Fails(s, k) <==> now.None?)
            && (now.Some? ==> PostAt(s, k) == Post(d.id, CreateAt(now.value), (k + s.channelNum) % s.numUsers, s.channelNum, Some(r.id)))
  {
    hide CreateAt;
  }

  lemma NextHundred(numPosts: nat, g: nat)
    ensures GROUP * g < numPosts ==> GROUP * (g + 1) <= PostsMade(numPosts)
    ensures GROUP * g >= numPosts && GROUP * g <= PostsMade(numPosts) ==> GROUP * g == PostsMade(numPosts)
  {
  }

  /** The loops of one channel: the posts sent, and whether the goroutine panicked on the way. */
  method ChannelPosts(s: Setup, numPosts: nat) returns (posts: seq<Post>, panicked: bool)
    ensures panicked <==> exists k: nat :: k < PostsMade(numPosts) && Fails(s, k)
    ensures panicked <==> numPosts > 0 && (|| s.numUsers == 0
                                           || s.timeRange <= 0
                                           || exists k: nat :: k < PostsMade(numPosts) && TooLate(s, k))
    ensures !panicked ==> |posts| == PostsMade(numPosts) && numPosts <= |posts| < numPosts + 100 && |posts| % 100 == 0
    ensures IsChannel(s, posts)
  {
    FailsExactly(s, numPosts);
    hide IsChannel, TooLate, RootTime, CreateAt, Fails, PostAt, RandomTime, RootAt, PostsMade;
    posts := [];
    NoPosts(s);
    var rootPosts: seq<RootPost> := [];
    var i := 0;
    ghost var g := 0;
    while i < numPosts
      invariant 0 <= i == GROUP * g <= PostsMade(numPosts)
      invariant |posts| == i && |rootPosts| == g
      invariant IsChannel(s, posts)
      invariant forall h :: 0 <= h < g ==> RootAt(s, rootPosts[h], h)
    {
      NextHundred(numPosts, g);
      for j := 0 to GROUP
        invariant |posts| == i + j && |rootPosts| == if j == 0 then g else g + 1
        invariant IsChannel(s, posts)
        invariant forall h :: 0 <= h < |rootPosts| ==> RootAt(s, rootPosts[h], h)
      {
        var k := i + j;
        assert k / GROUP == g && k % GROUP == j;
        var d := s.draws(k);
        var now := RandomTime(d.now, None, s.timeRange, d.back);
        if now.None? || s.numUsers == 0 {
          NotMade(s, k);
          return posts, true;
        }
        var parentRoot := None;
        if j == 0 {
          rootPosts := rootPosts + [RootPost(d.id, now.value)];
          FirstOfHundred(s, rootPosts[g], g);
        }
        if j > 0 && d.reply {
          var rootPost := rootPosts[d.root % |rootPosts|];
          ReplyPost(s, k, rootPost);
          parentRoot := Some(rootPost.id);
          now := RandomTime(d.later, Some(rootPost.created), s.timeRange, d.forward);
          if now.None? {
            return posts, true;
          }
        } else {
          PlainPost(s, k, now.value);
        }
        var post := Post(d.id, CreateAt(now.value), (j + i + s.channelNum) % s.numUsers, s.channelNum, parentRoot);
        OneMorePost(s, posts, post);
        posts := posts + [post];
      }
      i := i + GROUP;
      g := g + 1;
    }
    NextHundred(numPosts, g);
    NoneFail(s, posts);
    panicked := false;
  }

  lemma FirstOfHundred(s: Setup, r: RootPost, g: nat)
    requires r.id == s.draws(GROUP * g).id && FirstTime(s, GROUP * g) == Some(r.created)
    ensures RootAt(s, r, g)
  {
  }

  ghost predicate RootAt(s: Setup, r: RootPost, h: nat) {
    r.id == s.draws(GROUP * h).id && FirstTime(s, GROUP * h) == Some(r.created)
  }

  lemma CreateAtMonotone(t: int, u: int)
    requires t <= u
    ensures CreateAt(t) <= CreateAt(u)
  {
  }

  /**
   A reply names a root post sent earlier in the same channel, which is not itself a reply, and is created no
   earlier than it and no later than the clock reading it was made at; other posts are made in the time range.
   */
  lemma RepliesFollowRoots(s: Setup, k: nat)
    requires !Fails(s, k)
    ensures var post := PostAt(s, k);
            && post.channel == s.channelNum && post.user < s.numUsers
            && (k % GROUP == 0 ==> post.parent.None?)
            && (post.parent.None? ==> CreateAt(s.draws(k).now - s.timeRange * SECOND) <= post.createAt <= CreateAt(s.draws(k).now))
    ensures var post, r := PostAt(s, k), RootPosition(s, k);
            post.parent.Some? ==>
              && r < k && !Fails(s, r)
              && PostAt(s, r).parent.None?
              && post.parent.value == PostAt(s, r).id
              && PostAt(s, r).createAt <= post.createAt <= CreateAt(s.draws(k).later)
  {
    if IsReply(s, k) {
      var r := RootPosition(s, k);
      CreateAtMonotone(TimeOf(s, r).value, TimeOf(s, k).value);
      CreateAtMonotone(TimeOf(s, k).value, s.draws(k).later);
    } else {
      CreateAtMonotone(TimeOf(s, k).value, s.draws(k).now);
      CreateAtMonotone(s.draws(k).now - s.timeRange * SECOND, TimeOf(s, k).value);
    }
  }

  /** Post k answers the root post r of the same stream. */
  ghost predicate Answers(posts: seq<Post>, k: nat, r: nat)
    requires k < |posts|
  {
    && r < k && r % 100 == 0 && posts[r].parent.None?
    && posts[k].parent == Some(posts[r].id) && posts[r].createAt <= posts[k].createAt
  }

  lemma RemainderUnique(x: nat, n: nat, q: nat, r: nat)
    requires x == n * q + r && r < n
    ensures x % n == r
  {
    if q > x / n {
      MulNext(x / n, q, n);
      assert false;
    } else if q < x / n {
      MulNext(q, x / n, n);
      assert false;
    }
  }

  /** Counting on by one, modulo n. */
  lemma NextRemainder(x: nat, n: nat)
    requires n > 0
    ensures (x + 1) % n == if x % n == n - 1 then 0 else x % n + 1
  {
    if x % n == n - 1 {
      assert n * (x / n + 1) == n * (x / n) + n;
      RemainderUnique(x + 1, n, x / n + 1, 0);
    } else {
      RemainderUnique(x + 1, n, x / n, x % n + 1);
    }
  }

  lemma NextUser(s: Setup, k: nat)
    requires !Fails(s, k) && !Fails(s, k + 1)
    ensures PostAt(s, k + 1).user == if PostAt(s, k).user == s.numUsers - 1 then 0 else PostAt(s, k).user + 1
  {
    hide TimeOf, FirstTime, RootPosition;
    NextRemainder(k + s.channelNum, s.numUsers);
    assert k + 1 + s.channelNum == k + s.channelNum + 1;
  }

  /**
   The stream of a channel: every post but the first of each hundred is a reply if its draw says so, and a reply answers
   an earlier root post; users take turns, starting with the one the channel's number gives.
   */
  lemma RepliesInStream(s: Setup, posts: seq<Post>, k: nat)
    requires IsChannel(s, posts) && k < |posts|
    ensures posts[k].id == s.draws(k).id && posts[k].channel == s.channelNum
    ensures posts[k].parent.Some? <==> k % 100 != 0 && s.draws(k).reply
    ensures posts[k].parent.Some? ==> exists r: nat :: Answers(posts, k, r)
    ensures s.numUsers > 0
    ensures posts[k].user == if k == 0 then s.channelNum % s.numUsers
                             else if posts[k - 1].user == s.numUsers - 1 then 0 else posts[k - 1].user + 1
  {
    RepliesFollowRoots(s, k);
    PostFacts(s, k);
    hide PostAt, Fails, CreateAt, RootTime, RandomTime;
    if posts[k].parent.Some? {
      assert Answers(posts, k, RootPosition(s, k));
    }
    if k > 0 {
      NextUser(s, k - 1);
    }
  }

  lemma PostFacts(s: Setup, k: nat)
    requires !Fails(s, k)
    ensures s.numUsers > 0
    ensures var post := PostAt(s, k);
            && post.id == s.draws(k).id && (post.parent.Some? <==> k % 100 != 0 && s.draws(k).reply)
            && (k == 0 ==> post.user == s.channelNum % s.numUsers)
  {
    hide RandomTime, RootTime, FirstTime, TimeOf, RootPosition;
  }

  /**
   CreateAt is the millisecond of a whole second: the second of a moment drawn for the post, back from the clock, or
   forward from its root post's moment and before the clock if the post is a reply.
   */
  lemma TimesInStream(s: Setup, posts: seq<Post>, k: nat)
    requires IsChannel(s, posts) && k < |posts|
    ensures s.timeRange > 0 && (posts[k].parent.Some? ==> RootTime(s, k) < s.draws(k).later)
    ensures posts[k].createAt % 1000 == 0
    ensures var d := s.draws(k);
            var time := if posts[k].parent.None? then d.now - d.back % s.timeRange * 1_000_000_000
                        else RootTime(s, k) + d.forward % (d.later - RootTime(s, k));
            posts[k].createAt * 1_000_000 <= time < posts[k].createAt * 1_000_000 + 1_000_000_000
  {
    PostTimes(s, k);
    hide PostAt, Fails, RootTime, RandomTime;
  }

  lemma PostTimes(s: Setup, k: nat)
    requires !Fails(s, k)
    ensures var post := PostAt(s, k);
            && post.createAt % 1000 == 0
            && s.timeRange > 0 && (post.parent.Some? ==> RootTime(s, k) < s.draws(k).later)
            && var d := s.draws(k);
               var time := if post.parent.None? then d.now - d.back % s.timeRange * 1_000_000_000
                           else RootTime(s, k) + d.forward % (d.later - RootTime(s, k));
               post.createAt * 1_000_000 <= time < post.createAt * 1_000_000 + 1_000_000_000
  {
  }
}
