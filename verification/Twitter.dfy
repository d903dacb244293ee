/** Twitter: per-user deques capped at ten tweets, and two ways to merge them into a news feed, both
    measured against the full history of posts. */
module Twitter {
  datatype Tweet = Tweet(timestamp: int, id: int)
  datatype Post = Post(user: int, tweet: Tweet)

  const CAP: nat := 10

  // ----- The full history -----------------------------------------------------------------------

  /** Posts carry their position as time stamp. */
  predicate Stamped(history: seq<Post>) {
    forall i :: 0 <= i < |history| ==> history[i].tweet.timestamp == i
  }

  /** The n most recent tweets of some users, newest first. */
  function Recent(history: seq<Post>, users: set<int>, n: nat): (feed: seq<Tweet>)
    ensures |feed| <= n
  {
    if n == 0 || history == [] then []
    else
      var last, front := history[|history| - 1], history[..|history| - 1];
      if last.user in users then [last.tweet] + Recent(front, users, n - 1) else Recent(front, users, n)
  }

  function Ids(tweets: seq<Tweet>): (ids: seq<int>)
    ensures |ids| == |tweets| && forall i :: 0 <= i < |ids| ==> ids[i] == tweets[i].id
  {
    seq(|tweets|, i requires 0 <= i < |tweets| => tweets[i].id)
  }

  predicate Descending(tweets: seq<Tweet>) {
    forall i, j :: 0 <= i < j < |tweets| ==> tweets[i].timestamp > tweets[j].timestamp
  }

  function Elements(tweets: seq<Tweet>): (elements: set<Tweet>)
    ensures forall t :: t in elements <==> t in tweets
  {
    set t | t in tweets
  }

  function AllBy(history: seq<Post>, users: set<int>): (all: set<Tweet>)
    ensures forall i :: 0 <= i < |history| && history[i].user in users ==> history[i].tweet in all
  {
    set i | 0 <= i < |history| && history[i].user in users :: history[i].tweet
  }

  predicate IsTop(all: set<Tweet>, top: set<Tweet>) {
    && top <= all && |top| <= CAP && (top != all ==> |top| == CAP)
    && forall x, y :: x in all && x !in top && y in top ==> x.timestamp < y.timestamp
  }

  lemma TopIsUnique(all: set<Tweet>, a: set<Tweet>, b: set<Tweet>)
    requires IsTop(all, a) && IsTop(all, b)
    ensures a == b
  {
    TopIsWithin(all, a, b);
    TopIsWithin(all, b, a);
  }

  lemma TopIsWithin(all: set<Tweet>, a: set<Tweet>, b: set<Tweet>)
    requires IsTop(all, a) && IsTop(all, b)
    ensures a <= b
  {
    if x :| x in a && x !in b {
      if b <= a {
        Smaller(b, a);
      } else {
        var y :| y in b && y !in a;
      }
    }
  }

  lemma Smaller<T>(a: set<T>, b: set<T>)
    requires a < b
    ensures |a| < |b|
  {
    var x :| x in b && x !in a;
    SizeWithin(a, b - {x});
  }

  lemma {:induction false} SizeWithin<T>(a: set<T>, b: set<T>)
    requires a <= b
    ensures |a| <= |b|
    decreases a
  {
    if a != {} {
      var x :| x in a;
      SizeWithin(a - {x}, b - {x});
    }
  }

  lemma {:induction false} DescendingIsUnique(a: seq<Tweet>, b: seq<Tweet>)
    requires Descending(a) && Descending(b) && Elements(a) == Elements(b)
    ensures a == b
    decreases |a|
  {
    if a == [] {
      assert forall i :: 0 <= i < |b| ==> b[i] in Elements(b);
    } else {
      assert a[0] in Elements(b);
      var j :| 0 <= j < |b| && b[j] == a[0];
      assert b[0] in Elements(a);
      var i :| 0 <= i < |a| && a[i] == b[0];
      assert i == 0 && j == 0;
      forall t ensures t in Elements(a[1..]) <==> t in Elements(b[1..]) {
        assert t in a <==> t == a[0] || t in a[1..];
        assert t in b <==> t == b[0] || t in b[1..];
        assert a[0] !in a[1..] && b[0] !in b[1..];
      }
      DescendingIsUnique(a[1..], b[1..]);
    }
  }

  lemma {:induction false} DescendingSize(tweets: seq<Tweet>)
    requires Descending(tweets)
    ensures |Elements(tweets)| == |tweets|
  {
    if tweets != [] {
      DescendingSize(tweets[1..]);
      assert Elements(tweets) == Elements(tweets[1..]) + {tweets[0]};
      assert tweets[0] !in tweets[1..];
    }
  }

  /** The feed is ordered, taken from the users' tweets, and leaves out older ones only. */
  lemma {:induction false} RecentIsTop(history: seq<Post>, users: set<int>, n: nat)
    requires Stamped(history)
    ensures var feed := Recent(history, users, n);
      && Descending(feed) && Elements(feed) <= AllBy(history, users)
      && (forall t :: t in feed ==> t.timestamp < |history|)
      && (forall x :: x in AllBy(history, users) && x !in feed ==>
            |feed| == n && forall y :: y in feed ==> x.timestamp < y.timestamp)
  {
    if n > 0 && history != [] {
      var last, front := history[|history| - 1], history[..|history| - 1];
      assert AllBy(history, users) == AllBy(front, users) + (if last.user in users then {last.tweet} else {}) by {
        assert forall i :: 0 <= i < |front| ==> front[i] == history[i];
        forall t | t in AllBy(history, users)
          ensures t in AllBy(front, users) || (last.user in users && t == last.tweet)
        {
          var i :| 0 <= i < |history| && history[i].user in users && history[i].tweet == t;
          assert i < |front| ==> front[i].tweet == t;
        }
      }
      RecentIsTop(front, users, if last.user in users then n - 1 else n);
    }
  }

  /** A shorter feed is the start of a longer one. */
  lemma {:induction false} RecentPrefix(history: seq<Post>, users: set<int>, n: nat)
    ensures var longer := Recent(history, users, n + 1);
      Recent(history, users, n) == if |longer| > n then longer[..n] else longer
  {
    if n > 0 && history != [] {
      var last, front := history[|history| - 1], history[..|history| - 1];
      RecentPrefix(front, users, if last.user in users then n - 1 else n);
    }
  }

  /** What reaches the common feed is in its author's own capped deque. */
  lemma {:induction false} RecentIsCapped(history: seq<Post>, users: set<int>, n: nat, t: Tweet)
    requires t in Recent(history, users, n)
    ensures exists user :: user in users && t in Recent(history, {user}, n)
  {
    var last, front := history[|history| - 1], history[..|history| - 1];
    if last.user in users && t == last.tweet {
      assert t in Recent(history, {last.user}, n);
    } else if last.user in users {
      RecentIsCapped(front, users, n - 1, t);
      var user :| user in users && t in Recent(front, {user}, n - 1);
      RecentPrefix(front, {user}, n - 1);
      assert t in Recent(history, {user}, n);
    } else {
      RecentIsCapped(front, users, n, t);
      var user :| user in users && t in Recent(front, {user}, n);
      assert t in Recent(history, {user}, n);
    }
  }

  /** Everything the capped deques of the users hold. */
  function Gathered(history: seq<Post>, users: set<int>): (all: set<Tweet>) {
    set user, t | user in users && t in Recent(history, {user}, CAP) :: t
  }

  /** Capping loses nothing: the ten most recent of the capped deques are those of the full history. */
  lemma CappedIsEnough(history: seq<Post>, users: set<int>)
    requires Stamped(history)
    ensures IsTop(Gathered(history, users), Elements(Recent(history, users, CAP)))
  {
    var feed, all := Recent(history, users, CAP), Gathered(history, users);
    RecentIsTop(history, users, CAP);
    DescendingSize(feed);
    forall t | t in feed ensures t in all {
      RecentIsCapped(history, users, CAP, t);
    }
    forall t | t in all ensures t in AllBy(history, users) {
      var user :| user in users && t in Recent(history, {user}, CAP);
      RecentIsTop(history, {user}, CAP);
      assert t in AllBy(history, {user});
    }
    assert forall x :: x in all && x !in Elements(feed) ==> |feed| == CAP;
  }

  /** Any descending list of the ten most recent capped tweets is the feed of the full history. */
  lemma TopIsTheFeed(history: seq<Post>, users: set<int>, tweets: seq<Tweet>)
    requires Stamped(history) && Descending(tweets) && IsTop(Gathered(history, users), Elements(tweets))
    ensures tweets == Recent(history, users, CAP)
  {
    CappedIsEnough(history, users);
    RecentIsTop(history, users, CAP);
    TopIsUnique(Gathered(history, users), Elements(tweets), Elements(Recent(history, users, CAP)));
    DescendingIsUnique(tweets, Recent(history, users, CAP));
  }

  // ----- The bounded heap -----------------------------------------------------------------------

  lemma {:induction false} HasOldest(heap: set<Tweet>)
    requires heap != {}
    ensures exists t :: t in heap && forall u :: u in heap ==> t.timestamp <= u.timestamp
    decreases heap
  {
    var x :| x in heap;
    if heap == {x} {
      assert forall u :: u in heap ==> x.timestamp <= u.timestamp;
    } else {
      HasOldest(heap - {x});
      var t :| t in heap - {x} && forall u :: u in heap - {x} ==> t.timestamp <= u.timestamp;
      var least := if x.timestamp < t.timestamp then x else t;
      assert least in heap && forall u :: u in heap ==> least.timestamp <= u.timestamp;
    }
  }

  /** Tweets with the same time stamp are the same tweet. */
  predicate Distinct(all: set<Tweet>) {
    forall x, y :: x in all && y in all && x.timestamp == y.timestamp ==> x == y
  }

  /** One more tweet offered to the heap of the ten most recent. */
  lemma OfferKeepsTop(all: set<Tweet>, heap: set<Tweet>, t: Tweet)
    requires IsTop(all, heap) && Distinct(all + {t}) && t !in all
    ensures |heap + {t}| <= CAP ==> IsTop(all + {t}, heap + {t})
    ensures |heap + {t}| > CAP ==>
      forall oldest :: oldest in heap + {t} && (forall u :: u in heap + {t} ==> oldest.timestamp <= u.timestamp) ==>
        IsTop(all + {t}, heap + {t} - {oldest})
  {
    assert |heap + {t}| == |heap| + 1;
    forall oldest | |heap + {t}| > CAP && oldest in heap + {t} &&
        (forall u :: u in heap + {t} ==> oldest.timestamp <= u.timestamp)
      ensures IsTop(all + {t}, heap + {t} - {oldest})
    {
      var top := heap + {t} - {oldest};
      assert |top| == CAP;
      forall x, y | x in all + {t} && x !in top && y in top ensures x.timestamp < y.timestamp {
        assert oldest != y && oldest.timestamp != y.timestamp;
        if x != oldest {
          assert x in all && x !in heap;
          assert oldest in heap ==> x.timestamp < oldest.timestamp;
          assert y in heap ==> x.timestamp < y.timestamp;
          if y == t { assert oldest in heap; }
        }
      }
    }
  }

  lemma {:induction false} OldestIsLast(tweets: seq<Tweet>, oldest: Tweet)
    requires Descending(tweets) && oldest in tweets && forall u :: u in tweets ==> oldest.timestamp <= u.timestamp
    ensures oldest == tweets[|tweets| - 1]
    ensures Elements(tweets) - {oldest} == Elements(tweets[..|tweets| - 1])
  {
    var k := |tweets| - 1;
    var i :| 0 <= i < |tweets| && tweets[i] == oldest;
    assert tweets[k] in tweets;
    assert i == k;
    assert oldest !in tweets[..k];
    assert tweets == tweets[..k] + [oldest];
  }

  /** Distinct users' tweets are distinct. */
  lemma {:induction false} RecentAuthor(history: seq<Post>, users: set<int>, n: nat, t: Tweet)
    requires Stamped(history) && t in Recent(history, users, n)
    ensures 0 <= t.timestamp < |history| && history[t.timestamp].tweet == t && history[t.timestamp].user in users
  {
    var last, front := history[|history| - 1], history[..|history| - 1];
    if !(last.user in users && t == last.tweet) {
      RecentAuthor(front, users, if last.user in users then n - 1 else n, t);
      assert front[t.timestamp] == history[t.timestamp];
    }
  }

  lemma GatheredIsDistinct(history: seq<Post>, users: set<int>)
    requires Stamped(history)
    ensures Distinct(Gathered(history, users))
    ensures forall user, t :: t in Gathered(history, users) && user !in users ==> t !in Recent(history, {user}, CAP)
  {
    forall t | t in Gathered(history, users)
      ensures 0 <= t.timestamp < |history| && history[t.timestamp].tweet == t && history[t.timestamp].user in users
    {
      var user :| user in users && t in Recent(history, {user}, CAP);
      RecentAuthor(history, {user}, CAP, t);
    }
    forall user, t | t in Recent(history, {user}, CAP) && user !in users ensures t !in Gathered(history, users) {
      RecentAuthor(history, {user}, CAP, t);
    }
  }

  lemma GatheredMore(history: seq<Post>, users: set<int>, user: int)
    ensures Gathered(history, users + {user}) == Gathered(history, users) + Elements(Recent(history, {user}, CAP))
  {
  }

  /** What a post does to every user's ten most recent tweets. */
  lemma PostRecent(history: seq<Post>, post: Post, user: int)
    ensures var longer := [post.tweet] + Recent(history, {user}, CAP);
      Recent(history + [post], {user}, CAP) ==
      if user != post.user then Recent(history, {user}, CAP) else if |longer| > CAP then longer[..CAP] else longer
  {
    assert (history + [post])[..|history|] == history;
    RecentPrefix(history, {user}, CAP - 1);
  }

  /** Gathered once the first i tweets of one more user have been offered too. */
  function SeenSoFar(history: seq<Post>, users: set<int>, tweets: seq<Tweet>, i: nat): set<Tweet>
    requires i <= |tweets|
  {
    Gathered(history, users) + Elements(tweets[..i])
  }

  lemma SeenAtEnds(history: seq<Post>, users: set<int>, user: int)
    ensures var tweets := Recent(history, {user}, CAP);
      && SeenSoFar(history, users, tweets, 0) == Gathered(history, users)
      && SeenSoFar(history, users, tweets, |tweets|) == Gathered(history, users + {user})
  {
    var tweets := Recent(history, {user}, CAP);
    GatheredMore(history, users, user);
    hide Gathered, Recent;
    assert tweets[..|tweets|] == tweets && Elements(tweets[..0]) == {};
  }

  /** A followee's next tweet has not been gathered yet. */
  lemma NextIsNew(history: seq<Post>, users: set<int>, user: int, i: nat)
    requires Stamped(history) && user !in users && i < |Recent(history, {user}, CAP)|
    ensures var tweets := Recent(history, {user}, CAP);
      var seen := SeenSoFar(history, users, tweets, i);
      && tweets[i] !in seen && Distinct(seen + {tweets[i]})
      && seen + {tweets[i]} == SeenSoFar(history, users, tweets, i + 1)
  {
    var tweets := Recent(history, {user}, CAP);
    GatheredMore(history, users, user);
    GatheredIsDistinct(history, users);
    GatheredIsDistinct(history, users + {user});
    RecentIsTop(history, {user}, CAP);
    hide Recent, Gathered;
    assert tweets[..i + 1] == tweets[..i] + [tweets[i]];
  }

  lemma DrainStep(tweets: seq<Tweet>, n: nat, heap: set<Tweet>, oldest: Tweet)
    requires Descending(tweets) && n <= |tweets| && heap == Elements(tweets[..n])
    requires oldest in heap && forall u :: u in heap ==> oldest.timestamp <= u.timestamp
    ensures n > 0 && oldest == tweets[n - 1] && heap - {oldest} == Elements(tweets[..n - 1])
    ensures |heap - {oldest}| == |heap| - 1
  {
    assert forall u :: u in tweets[..n] ==> u in heap;
    OldestIsLast(tweets[..n], oldest);
    assert tweets[..n][..n - 1] == tweets[..n - 1];
  }

  // ----- The k-way merge ------------------------------------------------------------------------

  /** A heap entry is what remains of one followee's deque, its next tweet first. */
  type Range = seq<Tweet>

  /** Entries are compared by their next tweet. */
  function Head(r: Range): int {
    if r == [] then -1 else r[0].timestamp
  }

  function RangeTweets(heap: set<Range>): set<Tweet> {
    set r, t | r in heap && t in r :: t
  }

  predicate Ranges(heap: set<Range>) {
    && (forall r :: r in heap ==> r != [] && Descending(r))
    && forall r, s, t :: r in heap && s in heap && t in r && t in s ==> r == s
  }

  /** All tweets are either in the feed or in the heap, and the feed's are newer. */
  predicate Merging(all: set<Tweet>, feed: seq<Tweet>, heap: set<Range>) {
    && Ranges(heap) && Descending(feed) && all == Elements(feed) + RangeTweets(heap)
    && forall x, y :: x in feed && y in RangeTweets(heap) ==> x.timestamp > y.timestamp
  }

  lemma {:induction false} HasNewest(heap: set<Range>)
    requires heap != {} && forall r :: r in heap ==> r != []
    ensures exists r :: r in heap && forall s :: s in heap ==> Head(s) <= Head(r)
    decreases heap
  {
    var x :| x in heap;
    if heap == {x} {
      assert forall s :: s in heap ==> Head(s) <= Head(x);
    } else {
      HasNewest(heap - {x});
      var r :| r in heap - {x} && forall s :: s in heap - {x} ==> Head(s) <= Head(r);
      var best := if Head(x) > Head(r) then x else r;
      assert best in heap && forall s :: s in heap ==> Head(s) <= Head(best);
    }
  }

  /** One more followee's deque put on the heap. */
  lemma AddRange(history: seq<Post>, users: set<int>, user: int, heap: set<Range>)
    requires Stamped(history) && user !in users && Ranges(heap) && RangeTweets(heap) == Gathered(history, users)
    ensures var r := Recent(history, {user}, CAP);
      var heap' := if r != [] then heap + {r} else heap;
      Ranges(heap') && RangeTweets(heap') == Gathered(history, users + {user})
  {
    var r := Recent(history, {user}, CAP);
    GatheredMore(history, users, user);
    GatheredIsDistinct(history, users);
    RecentIsTop(history, {user}, CAP);
    assert forall t :: t in r ==> t !in RangeTweets(heap);
    hide Recent, Gathered, Descending;
    forall s, t | s in heap && t in s ensures t in RangeTweets(heap) {}
    assert RangeTweets(heap + {r}) == RangeTweets(heap) + Elements(r);
  }

  function Popped(heap: set<Range>, r: Range): set<Range>
    requires r != []
  {
    heap - {r} + if |r| > 1 then {r[1..]} else {}
  }

  lemma PoppedTweets(heap: set<Range>, r: Range)
    requires Ranges(heap) && r in heap
    ensures Ranges(Popped(heap, r)) && RangeTweets(heap) == RangeTweets(Popped(heap, r)) + {r[0]}
    ensures r[0] !in RangeTweets(Popped(heap, r))
  {
    var after := Popped(heap, r);
    assert forall t :: t in r <==> t == r[0] || t in r[1..];
    assert r[0] !in r[1..];
    forall t ensures t in RangeTweets(heap) <==> t in RangeTweets(after) || t == r[0] {
      if t in RangeTweets(heap) {
        var s :| s in heap && t in s;
        if s == r && t != r[0] { assert r[1..] in after; }
      }
    }
  }

  lemma HeadIsNewest(heap: set<Range>, r: Range, y: Tweet)
    requires Ranges(heap) && r in heap && (forall s :: s in heap ==> Head(s) <= Head(r))
    requires y in RangeTweets(heap)
    ensures y.timestamp <= Head(r)
  {
    var s: Range :| s in heap && y in s;
    var i :| 0 <= i < |s| && s[i] == y;
    assert i > 0 ==> Head(s) > y.timestamp;
  }

  /** The next tweet of the merge is older than those of the feed and newer than all that stay. */
  lemma NextIsBetween(all: set<Tweet>, feed: seq<Tweet>, heap: set<Range>, r: Range)
    requires Merging(all, feed, heap) && Distinct(all)
    requires r in heap && forall s :: s in heap ==> Head(s) <= Head(r)
    ensures r != [] && r[0].timestamp == Head(r) && (forall x :: x in feed ==> x.timestamp > Head(r))
    ensures forall y :: y in RangeTweets(Popped(heap, r)) ==> y.timestamp < Head(r)
  {
    PoppedTweets(heap, r);
    assert r[0] in RangeTweets(heap);
    hide Popped, Descending;
    forall y | y in RangeTweets(Popped(heap, r)) ensures y.timestamp < Head(r) {
      HeadIsNewest(heap, r, y);
      assert y in all && r[0] in all && y != r[0];
    }
  }

  lemma DescendingEnd(feed: seq<Tweet>, t: Tweet)
    requires Descending(feed) && forall x :: x in feed ==> x.timestamp > t.timestamp
    ensures Descending(feed + [t]) && Elements(feed + [t]) == Elements(feed) + {t}
  {
    assert forall i :: 0 <= i < |feed| ==> feed[i] in feed;
  }

  lemma MergeStep(all: set<Tweet>, feed: seq<Tweet>, heap: set<Range>, r: Range)
    requires Merging(all, feed, heap) && Distinct(all)
    requires r in heap && forall s :: s in heap ==> Head(s) <= Head(r)
    ensures r != [] && Merging(all, feed + [r[0]], Popped(heap, r))
  {
    PoppedTweets(heap, r);
    NextIsBetween(all, feed, heap, r);
    DescendingEnd(feed, r[0]);
    hide Ranges, RangeTweets, Popped, Descending, Elements, Head;
  }

  lemma MergeEnd(all: set<Tweet>, feed: seq<Tweet>, heap: set<Range>)
    requires Merging(all, feed, heap) && |feed| <= CAP && (heap == {} || |feed| == CAP)
    ensures IsTop(all, Elements(feed)) && Descending(feed)
  {
    DescendingSize(feed);
  }

  class Twitter {
    var userFollows: map<int, set<int>>
    var userTweets: map<int, seq<Tweet>>
    var timestamp: int
    ghost var history: seq<Post>

    /** An absent entry reads as an empty one. */
    function Tweets(user: int): seq<Tweet>
      reads this`userTweets
    {
      if user in userTweets then userTweets[user] else []
    }

    function Follows(user: int): set<int>
      reads this`userFollows
    {
      if user in userFollows then userFollows[user] else {}
    }

    /** Each deque holds its user's ten most recent tweets of the full history. */
    ghost predicate Valid()
      reads this
    {
      Stamped(history) && timestamp == |history| && forall user :: Tweets(user) == Recent(history, {user}, CAP)
    }

    constructor ()
      ensures Valid() && history == [] && userFollows == map[]
    {
      userFollows := map[];
      userTweets := map[];
      timestamp := 0;
      history := [];
    }

    method PostTweet(userId: int, tweetId: int)
      requires Valid()
      modifies this
      ensures Valid() && history == old(history) + [Post(userId, Tweet(|old(history)|, tweetId))]
      ensures userFollows == old(userFollows)
    {
      var tweet := Tweet(timestamp, tweetId);
      timestamp := timestamp + 1;
      userTweets := userTweets[userId := [tweet] + Tweets(userId)];
      if |userTweets[userId]| > 10 {
        userTweets := userTweets[userId := userTweets[userId][..|userTweets[userId]| - 1]];
      }
      history := history + [Post(userId, tweet)];
      hide Recent;
      forall user ensures Tweets(user) == Recent(history, {user}, CAP) {
        assert old(Tweets(user)) == Recent(old(history), {user}, CAP);
        PostRecent(old(history), Post(userId, tweet), user);
      }
    }

    method Follow(followerId: int, followeeId: int)
      requires Valid()
      modifies this`userFollows
      ensures Valid() &&
        forall user :: Follows(user) == old(Follows(user)) + if user == followerId then {followeeId} else {}
    {
      userFollows := userFollows[followerId := Follows(followerId) + {followeeId}];
    }

    method Unfollow(followerId: int, followeeId: int)
      requires Valid()
      modifies this`userFollows
      ensures Valid() && forall user :: user != followerId ==> Follows(user) == old(Follows(user))
      ensures Follows(followerId) == old(Follows(followerId)) - if followerId != followeeId then {followeeId} else {}
    {
      if followerId != followeeId {
        userFollows := userFollows[followerId := Follows(followerId) - {followeeId}];
      }
    }

    /** Makes the user follow itself and gives followees without tweets an empty deque; the feed is the ten
        most recent tweets of the full history of the user and its followees. */
    method GetNewsFeed(userId: int) returns (newsFeed: seq<int>)
      requires Valid()
      modifies this`userFollows, this`userTweets
      ensures Valid()
      ensures forall user :: Follows(user) == old(Follows(user)) + if user == userId then {userId} else {}
      ensures newsFeed == Ids(Recent(history, old(Follows(userId)) + {userId}, 10))
    {
      userFollows := userFollows[userId := Follows(userId) + {userId}];
      var minHeap := FillHeap(userFollows[userId]);
      ghost var tweets := Recent(history, Follows(userId), CAP);
      CappedIsEnough(history, Follows(userId));
      RecentIsTop(history, Follows(userId), CAP);
      TopIsUnique(Gathered(history, Follows(userId)), minHeap, Elements(tweets));
      newsFeed := DrainHeap(minHeap, tweets);
    }

    /** The second version: a k-way merge of the deques. */
    method GetNewsFeedMerged(userId: int) returns (newsFeed: seq<int>)
      requires Valid()
      modifies this`userFollows, this`userTweets
      ensures Valid()
      ensures forall user :: Follows(user) == old(Follows(user)) + if user == userId then {userId} else {}
      ensures newsFeed == Ids(Recent(history, old(Follows(userId)) + {userId}, 10))
    {
      userFollows := userFollows[userId := Follows(userId) + {userId}];
      ghost var users := Follows(userId);
      var maxHeap := FillRanges(userFollows[userId]);
      GatheredIsDistinct(history, users);
      assert Elements([]) == {};
      ghost var feed;
      newsFeed, feed := MergeRanges(Gathered(history, users), maxHeap);
      TopIsTheFeed(history, users, feed);
    }

    method FillRanges(users: set<int>) returns (maxHeap: set<Range>)
      requires Valid()
      modifies this`userTweets
      ensures Valid() && Ranges(maxHeap) && RangeTweets(maxHeap) == Gathered(history, users)
    {
      maxHeap := {};
      var todo := users;
      hide Recent, Distinct, Elements, Stamped;
      assert Gathered(history, users - todo) == {} == RangeTweets(maxHeap);
      hide Gathered, RangeTweets, Ranges;
      while todo != {}
        invariant Valid() && todo <= users && Ranges(maxHeap) && RangeTweets(maxHeap) == Gathered(history, users - todo)
        decreases todo
      {
        var followeeId := AnyOf(todo);
        userTweets := userTweets[followeeId := Tweets(followeeId)];
        var tweets := userTweets[followeeId];
        assert users - (todo - {followeeId}) == users - todo + {followeeId};
        AddRange(history, users - todo, followeeId, maxHeap);
        if tweets != [] {
          maxHeap := maxHeap + {tweets};
        }
        todo := todo - {followeeId};
      }
    }

    /** The first loop: a min-heap that never keeps more than ten tweets. Followees come in any order. */
    method FillHeap(users: set<int>) returns (minHeap: set<Tweet>)
      requires Valid()
      modifies this`userTweets
      ensures Valid() && IsTop(Gathered(history, users), minHeap)
    {
      minHeap := {};
      var todo := users;
      hide Recent, Distinct, Elements, Stamped;
      assert Gathered(history, users - todo) == {};
      assert IsTop({}, minHeap);
      hide Gathered, IsTop;
      while todo != {}
        invariant Valid() && todo <= users && IsTop(Gathered(history, users - todo), minHeap)
        decreases todo
      {
        var followeeId := AnyOf(todo);
        userTweets := userTweets[followeeId := Tweets(followeeId)];
        assert users - (todo - {followeeId}) == users - todo + {followeeId};
        minHeap := OfferAll(history, users - todo, followeeId, userTweets[followeeId], minHeap);
        todo := todo - {followeeId};
      }
    }
  }

  /** The inner loop: one followee's deque. */
  method OfferAll(ghost history: seq<Post>, ghost users: set<int>, ghost user: int, tweets: seq<Tweet>,
                  minHeap: set<Tweet>)
    returns (heap: set<Tweet>)
    requires Stamped(history) && user !in users && tweets == Recent(history, {user}, CAP)
    requires IsTop(Gathered(history, users), minHeap)
    ensures IsTop(Gathered(history, users + {user}), heap)
  {
    SeenAtEnds(history, users, user);
    hide *;
    heap := minHeap;
    for i := 0 to |tweets|
      invariant IsTop(SeenSoFar(history, users, tweets, i), heap)
    {
      NextIsNew(history, users, user, i);
      heap := Offer(SeenSoFar(history, users, tweets, i), heap, tweets[i]);
    }
  }

  /** The next followee of an unordered set. */
  method AnyOf<T>(users: set<T>) returns (user: T)
    requires users != {}
    ensures user in users
  {
    user :| user in users;
  }

  /** Pushes a tweet and pops the oldest of eleven. */
  method Offer(ghost seen: set<Tweet>, minHeap: set<Tweet>, tweet: Tweet) returns (heap: set<Tweet>)
    requires IsTop(seen, minHeap) && Distinct(seen + {tweet}) && tweet !in seen
    ensures IsTop(seen + {tweet}, heap)
  {
    OfferKeepsTop(seen, minHeap, tweet);
    heap := minHeap + {tweet};
    if |heap| > 10 {
      var oldest := Oldest(heap);
      heap := heap - {oldest};
    }
  }

  /** The top of a min-heap. */
  method Oldest(heap: set<Tweet>) returns (oldest: Tweet)
    requires heap != {}
    ensures oldest in heap && forall u :: u in heap ==> oldest.timestamp <= u.timestamp
  {
    HasOldest(heap);
    oldest :| oldest in heap && forall u :: u in heap ==> oldest.timestamp <= u.timestamp;
  }

  /** Pops the newest next tweet until ten are found or the deques run out. */
  method MergeRanges(ghost all: set<Tweet>, ranges: set<Range>) returns (newsFeed: seq<int>, ghost feed: seq<Tweet>)
    requires Distinct(all) && Merging(all, [], ranges)
    ensures newsFeed == Ids(feed) && Descending(feed) && IsTop(all, Elements(feed))
  {
    newsFeed, feed := [], [];
    var maxHeap := ranges;
    hide Distinct, Merging, Popped, RangeTweets, Elements, IsTop, Descending, Head;
    while maxHeap != {} && |newsFeed| < 10
      invariant Merging(all, feed, maxHeap) && |feed| <= CAP && newsFeed == Ids(feed)
      decreases CAP - |newsFeed|
    {
      StillRanges(all, feed, maxHeap);
      var range := Newest(maxHeap);
      MergeStep(all, feed, maxHeap, range);
      maxHeap := NextRange(maxHeap, range);
      newsFeed := newsFeed + [range[0].id];
      feed := feed + [range[0]];
    }
    MergeEnd(all, feed, maxHeap);
  }

  /** The top of the max-heap of ranges. */
  method Newest(heap: set<Range>) returns (range: Range)
    requires heap != {} && forall r :: r in heap ==> r != []
    ensures range in heap && forall s :: s in heap ==> Head(s) <= Head(range)
  {
    HasNewest(heap);
    range :| range in heap && forall s :: s in heap ==> Head(s) <= Head(range);
  }

  /** Advances the iterator and pushes what remains. */
  method NextRange(heap: set<Range>, range: Range) returns (after: set<Range>)
    requires range != []
    ensures after == Popped(heap, range)
  {
    after := heap - {range};
    var rest := range[1..];
    if rest != [] {
      after := after + {rest};
    }
  }

  lemma StillRanges(all: set<Tweet>, feed: seq<Tweet>, heap: set<Range>)
    requires Merging(all, feed, heap)
    ensures forall r :: r in heap ==> r != []
  {
  }

  /** The second loop: pops the oldest first and fills the feed from its end. */
  method DrainHeap(minHeap: set<Tweet>, ghost tweets: seq<Tweet>) returns (newsFeed: seq<int>)
    requires Descending(tweets) && Elements(tweets) == minHeap
    ensures newsFeed == Ids(tweets)
  {
    DescendingSize(tweets);
    newsFeed := seq(|minHeap|, _ => 0);
    var heap := minHeap;
    ghost var n := |minHeap|;
    assert tweets[..n] == tweets;
    hide *;
    while heap != {}
      invariant 0 <= n <= |tweets| == |newsFeed| && heap == Elements(tweets[..n]) && |heap| == n
      invariant forall i :: n <= i < |newsFeed| ==> newsFeed[i] == tweets[i].id
      decreases heap
    {
      var oldest := Oldest(heap);
      DrainStep(tweets, n, heap, oldest);
      n := n - 1;
      newsFeed := newsFeed[|heap| - 1 := oldest.id];
      heap := heap - {oldest};
    }
    AreIds(tweets, newsFeed);
  }

  lemma AreIds(tweets: seq<Tweet>, ids: seq<int>)
    requires |ids| == |tweets| && forall i :: 0 <= i < |ids| ==> ids[i] == tweets[i].id
    ensures ids == Ids(tweets)
  {
  }
}
