/**
 * The follower graph and the home timeline of the micro-blog.
 *
 * The association table `followers` is a list of rows (follower id, followed id).
 * Nothing at the storage level stops a row from appearing twice; the application
 * keeps the table duplicate-free by testing `is_following` before it appends.
 */
module Models {
  import opened Sequences

  type UserId = int

  /** One row of the `followers` association table. */
  datatype Edge = Edge(followerId: UserId, followedId: UserId)

  /** One row of the `post` table; timestamps are taken as given integers. */
  datatype Post = Post(id: int, body: string, timestamp: int, userId: UserId)

  // ---------------------------------------------------------------------------
  // Follower graph
  // ---------------------------------------------------------------------------

  /** The number of rows equal to `e`: what `.count()` of the filtered query returns. */
  function CountEdge(rows: seq<Edge>, e: Edge): (n: nat)
    ensures n == multiset(rows)[e]
    ensures n > 0 <==> e in rows
  {
    if rows == [] then 0
    else
      assert rows == [rows[0]] + rows[1..];
      (if rows[0] == e then 1 else 0) + CountEdge(rows[1..], e)
  }

  /** `is_following`: some row links `follower` to `followed`. */
  function IsFollowing(rows: seq<Edge>, follower: UserId, followed: UserId): (r: bool)
    ensures r <==> Edge(follower, followed) in rows
  {
    CountEdge(rows, Edge(follower, followed)) > 0
  }

  /** The table after `follow`: the row is appended unless it is already there. */
  function AddEdge(rows: seq<Edge>, e: Edge): (r: seq<Edge>)
    ensures e in r
    ensures forall x :: x != e ==> (x in r <==> x in rows)
    ensures e in rows ==> r == rows
    ensures e !in rows ==> r == rows + [e]
    ensures NoDuplicates(rows) ==> NoDuplicates(r)
  {
    if CountEdge(rows, e) > 0 then rows else rows + [e]
  }

  /**
   * The table after the association row `e` is deleted. On a duplicate-free table,
   * the only kind `follow` builds, that is exactly one row (`RemoveEdgeDeletesOneRow`).
   */
  function RemoveEdge(rows: seq<Edge>, e: Edge): (r: seq<Edge>)
    ensures multiset(r) == multiset(rows)[e := 0]
    ensures e !in rows ==> r == rows
    ensures NoDuplicates(rows) ==> NoDuplicates(r)
  {
    if rows == [] then []
    else
      assert rows == [rows[0]] + rows[1..];
      var rest := RemoveEdge(rows[1..], e);
      if rows[0] == e then rest
      else
        assert NoDuplicates(rows) ==> NoDuplicates([rows[0]] + rest) by {
          if NoDuplicates(rows) {
            NoDuplicatesTail(rows);
            assert rows[0] !in multiset(rest);
            NoDuplicatesCons(rows[0], rest);
          }
        }
        [rows[0]] + rest
  }

  /** Deleting the rows equal to `e` keeps every other row and removes `e`. */
  lemma RemoveEdgeMembership(rows: seq<Edge>, e: Edge)
    ensures e !in RemoveEdge(rows, e)
    ensures forall x :: x != e ==> (x in RemoveEdge(rows, e) <==> x in rows)
  {
  }

  /** On a duplicate-free table `is_following` counts at most one row. */
  lemma {:induction false} CountAtMostOne(rows: seq<Edge>, e: Edge)
    requires NoDuplicates(rows)
    ensures CountEdge(rows, e) <= 1
  {
    if rows != [] {
      assert NoDuplicates(rows[1..]) by {
        forall i, j | 0 <= i < j < |rows[1..]| ensures rows[1..][i] != rows[1..][j] {
          assert rows[1..][i] == rows[i + 1] && rows[1..][j] == rows[j + 1];
        }
      }
      CountAtMostOne(rows[1..], e);
      if rows[0] == e {
        assert e !in rows[1..] by {
          forall k | 0 <= k < |rows[1..]| ensures rows[1..][k] != e {
            assert rows[1..][k] == rows[k + 1];
          }
        }
      }
    }
  }

  /** On a duplicate-free table, unfollowing a followed user deletes exactly one row. */
  lemma RemoveEdgeDeletesOneRow(rows: seq<Edge>, e: Edge)
    requires NoDuplicates(rows) && e in rows
    ensures |RemoveEdge(rows, e)| == |rows| - 1
  {
  }

  /** `unfollow` undoes a `follow` that added a row: the table is restored exactly. */
  lemma {:induction false} FollowThenUnfollowRestores(rows: seq<Edge>, e: Edge)
    requires e !in rows
    ensures RemoveEdge(AddEdge(rows, e), e) == rows
  {
    var added := rows + [e];
    assert AddEdge(rows, e) == added;
    if rows == [] {
      assert RemoveEdge([e], e) == RemoveEdge([], e);
    } else {
      assert added[0] == rows[0] && added[1..] == rows[1..] + [e];
      assert rows[0] != e;
      FollowThenUnfollowRestores(rows[1..], e);
      assert AddEdge(rows[1..], e) == rows[1..] + [e];
      assert RemoveEdge(added, e) == [rows[0]] + rows[1..];
    }
  }

  /** Following twice leaves the same table as following once. */
  lemma FollowIdempotent(rows: seq<Edge>, e: Edge)
    ensures AddEdge(AddEdge(rows, e), e) == AddEdge(rows, e)
  {
  }

  /** Unfollowing twice leaves the same table as unfollowing once. */
  lemma UnfollowIdempotent(rows: seq<Edge>, e: Edge)
    ensures RemoveEdge(RemoveEdge(rows, e), e) == RemoveEdge(rows, e)
  {
  }

  /**
   * The `followers` table, shared by all users. `Follow` and `Unfollow` are
   * `self.follow(user)` and `self.unfollow(user)` with `follower` = self.id
   * and `followed` = user.id.
   */
  class FollowersTable {
    var rows: seq<Edge>

    /** The invariant the `is_following` guards maintain: no row twice. */
    ghost predicate Valid()
      reads this
    {
      NoDuplicates(rows)
    }

    constructor ()
      ensures rows == [] && Valid()
    {
      rows := [];
    }

    method Follow(follower: UserId, followed: UserId)
      modifies this
      ensures rows == AddEdge(old(rows), Edge(follower, followed))
      ensures IsFollowing(rows, follower, followed)
      ensures old(IsFollowing(rows, follower, followed)) ==> rows == old(rows)
      ensures forall x :: x != Edge(follower, followed) ==> (x in rows <==> x in old(rows))
      ensures !old(IsFollowing(rows, follower, followed)) ==> |rows| == |old(rows)| + 1
      ensures old(Valid()) ==> Valid()
    {
      if !IsFollowing(rows, follower, followed) {
        rows := rows + [Edge(follower, followed)];
      }
    }

    method Unfollow(follower: UserId, followed: UserId)
      modifies this
      ensures rows == RemoveEdge(old(rows), Edge(follower, followed))
      ensures !IsFollowing(rows, follower, followed)
      ensures !old(IsFollowing(rows, follower, followed)) ==> rows == old(rows)
      ensures forall x :: x != Edge(follower, followed) ==> multiset(rows)[x] == old(multiset(rows))[x]
      ensures old(Valid()) && old(IsFollowing(rows, follower, followed)) ==> |rows| == |old(rows)| - 1
      ensures old(Valid()) ==> Valid()
    {
      if IsFollowing(rows, follower, followed) {
        RemoveEdgeMembership(rows, Edge(follower, followed));
        if NoDuplicates(rows) {
          RemoveEdgeDeletesOneRow(rows, Edge(follower, followed));
        }
        rows := RemoveEdge(rows, Edge(follower, followed));
      }
    }
  }

  // ---------------------------------------------------------------------------
  // Timeline
  // ---------------------------------------------------------------------------

  /** `n` copies of `p`. */
  function Repeat(p: Post, n: nat): (r: seq<Post>)
    ensures |r| == n
    ensures forall x :: x in r <==> n > 0 && x == p
  {
    if n == 0 then [] else [p] + Repeat(p, n - 1)
  }

  /**
   * `Post.query.join(followers, followed_id == Post.user_id).filter(follower_id == me)`:
   * each post appears once for every matching row of the table.
   */
  function JoinFollowed(posts: seq<Post>, rows: seq<Edge>, me: UserId): (r: seq<Post>)
    ensures forall p :: p in r <==> p in posts && Edge(me, p.userId) in rows
  {
    if posts == [] then []
    else
      Repeat(posts[0], CountEdge(rows, Edge(me, posts[0].userId)))
        + JoinFollowed(posts[1..], rows, me)
  }

  /** `Post.query.filter_by(user_id = me)`. */
  function OwnPosts(posts: seq<Post>, me: UserId): (r: seq<Post>)
    ensures forall p :: p in r <==> p in posts && p.userId == me
  {
    if posts == [] then []
    else if posts[0].userId == me then [posts[0]] + OwnPosts(posts[1..], me)
    else OwnPosts(posts[1..], me)
  }

  /** Ordered by timestamp, newest first. */
  predicate NewestFirst(s: seq<Post>) {
    forall i, j :: 0 <= i < j < |s| ==> s[i].timestamp >= s[j].timestamp
  }

  /** A newest-first sequence stays newest-first under an element at least as new as its head. */
  lemma NewestFirstCons(x: Post, s: seq<Post>)
    requires NewestFirst(s)
    requires s != [] ==> x.timestamp >= s[0].timestamp
    ensures NewestFirst([x] + s)
  {
  }

  function InsertByTimestamp(p: Post, s: seq<Post>): (r: seq<Post>)
    requires NewestFirst(s)
    ensures NewestFirst(r)
    ensures multiset(r) == multiset(s) + multiset{p}
    ensures r[0] == p || (s != [] && r[0] == s[0])
    ensures NoDuplicates(s) && p !in s ==> NoDuplicates(r)
  {
    if s == [] || p.timestamp >= s[0].timestamp then
      NewestFirstCons(p, s);
      assert NoDuplicates(s) && p !in s ==> NoDuplicates([p] + s) by {
        if NoDuplicates(s) && p !in s { NoDuplicatesCons(p, s); }
      }
      [p] + s
    else
      assert s == [s[0]] + s[1..];
      assert NewestFirst(s[1..]) by {
        forall i, j | 0 <= i < j < |s[1..]| ensures s[1..][i].timestamp >= s[1..][j].timestamp {
          assert s[1..][i] == s[i + 1] && s[1..][j] == s[j + 1];
        }
      }
      var rest := InsertByTimestamp(p, s[1..]);
      NewestFirstCons(s[0], rest);
      assert NoDuplicates(s) && p !in s ==> NoDuplicates([s[0]] + rest) by {
        if NoDuplicates(s) && p !in s {
          NoDuplicatesTail(s);
          assert s[0] !in multiset(rest);
          NoDuplicatesCons(s[0], rest);
        }
      }
      [s[0]] + rest
  }

  /** `ORDER BY timestamp DESC`, with no claim about the order of equal timestamps. */
  function SortNewestFirst(s: seq<Post>): (r: seq<Post>)
    ensures NewestFirst(r)
    ensures multiset(r) == multiset(s)
    ensures NoDuplicates(s) ==> NoDuplicates(r)
  {
    if s == [] then []
    else
      assert s == [s[0]] + s[1..];
      var rest := SortNewestFirst(s[1..]);
      assert NoDuplicates(s) ==> s[0] !in rest && NoDuplicates(s[1..]) by {
        if NoDuplicates(s) {
          NoDuplicatesTail(s);
          assert s[0] !in multiset(rest);
        }
      }
      InsertByTimestamp(s[0], rest)
  }

  /**
   * `followed_posts`: the union of the posts joined through the user's rows
   * and the user's own posts, newest first.
   */
  function FollowedPosts(rows: seq<Edge>, posts: seq<Post>, me: UserId): (r: seq<Post>)
    ensures forall p :: p in r <==> p in posts && (p.userId == me || IsFollowing(rows, me, p.userId))
    ensures NewestFirst(r)
    ensures NoDuplicates(r)
  {
    var union := Distinct(JoinFollowed(posts, rows, me) + OwnPosts(posts, me));
    var r := SortNewestFirst(union);
    assert forall p :: p in r <==> p in union by {
      forall p ensures p in r <==> p in union {
        assert p in r <==> p in multiset(r);
      }
    }
    r
  }

  /** After `follow`, every post of the followed author is on the follower's timeline. */
  lemma FollowShowsAuthorPosts(rows: seq<Edge>, posts: seq<Post>, me: UserId, author: UserId, p: Post)
    requires p in posts && p.userId == author
    ensures p in FollowedPosts(AddEdge(rows, Edge(me, author)), posts, me)
  {
  }

  /**
   * After `unfollow`, no post of the unfollowed author is on the timeline, including
   * the posts written while the edge existed: the timeline is recomputed from the table.
   */
  lemma UnfollowHidesAuthorPosts(rows: seq<Edge>, posts: seq<Post>, me: UserId, author: UserId, p: Post)
    requires author != me && p.userId == author
    ensures p !in FollowedPosts(RemoveEdge(rows, Edge(me, author)), posts, me)
  {
  }

  /** A user's own posts are on the user's timeline whatever the table holds. */
  lemma OwnPostsAlwaysShown(rows: seq<Edge>, posts: seq<Post>, me: UserId, p: Post)
    requires p in posts && p.userId == me
    ensures p in FollowedPosts(rows, posts, me)
  {
  }

  /**
   * User 2 follows user 1, who has posted once; user 2 unfollows; user 1 posts
   * again. The first post is on user 2's timeline while the edge exists and
   * the timeline is empty afterwards: the earlier post is not kept.
   */
  lemma FollowUnfollowScenario()
    ensures var hello := Post(1, "hello", 10, 1);
            var world := Post(2, "world", 20, 1);
            var following := AddEdge([], Edge(2, 1));
            && FollowedPosts(following, [hello], 2) == [hello]
            && FollowedPosts(RemoveEdge(following, Edge(2, 1)), [hello, world], 2) == []
  {
  }
}
