/** The feed's post operations on values: making a post from a draft,
    toggling one user's like on a post, and the list-wide like (a `map` over
    the posts) and delete (a `filter`). The feed component replaces its list
    with the results of these functions. */
module Posts {
  import opened Types

  /** The part of a post that comes from the composer. */
  function DraftOf(p: Post): Draft {
    Draft(p.creator, p.caption, p.imageUrl, p.tags)
  }

  /** The ids of the posts, in feed order. */
  function Ids(posts: seq<Post>): (ids: seq<string>)
    ensures |ids| == |posts|
    ensures forall i :: 0 <= i < |posts| ==> ids[i] == posts[i].id
  {
    if posts == [] then [] else [posts[0].id] + Ids(posts[1..])
  }

  /** No identifier appears twice. */
  predicate NoDuplicates(s: seq<string>) {
    forall i, j :: 0 <= i < j < |s| ==> s[i] != s[j]
  }

  /** The like counter agrees with the list of likers, which has no repeats. */
  predicate LikesConsistent(p: Post) {
    p.likes == |p.likedBy| && NoDuplicates(p.likedBy)
  }

  /** The stronger invariant of a feed where only `user` ever likes: the
      likers are nobody or `user` alone, and the counter agrees. */
  predicate OnlyLikedBy(p: Post, user: string) {
    p.likes == |p.likedBy| && (p.likedBy == [] || p.likedBy == [user])
  }

  /** Every post of the list satisfies `OnlyLikedBy`. */
  predicate FeedInvariant(posts: seq<Post>, user: string) {
    forall i :: 0 <= i < |posts| ==> OnlyLikedBy(posts[i], user)
  }

  /** A post made from `draft`: the draft's fields unchanged, the given id and
      creation time, no likes and nobody among the likers. */
  function NewPost(draft: Draft, id: string, createdAt: int): (p: Post)
    ensures DraftOf(p) == draft
    ensures p.id == id && p.createdAt == createdAt
    ensures p.likes == 0 && p.likedBy == []
  {
    Post(id, draft.creator, draft.caption, draft.imageUrl, draft.tags, 0, [], createdAt)
  }

  /** `s.filter(id => id !== user)`: the identifiers other than `user`, in
      their order. */
  function RemoveAll(s: seq<string>, user: string): (r: seq<string>)
    ensures forall v :: v in r <==> v in s && v != user
    ensures |r| <= |s|
    ensures user !in s ==> r == s
  {
    if s == [] then []
    else
      var tail := RemoveAll(s[1..], user);
      if s[0] == user then tail
      else
        assert user !in s ==> [s[0]] + s[1..] == s;
        [s[0]] + tail
  }

  /** Toggling `user`'s like on one post: a user who did not like the post
      now does, one who did no longer does, the counter moves by one in the
      same direction, the other likers keep their order, and nothing else in
      the post changes. */
  function Toggle(p: Post, user: string): (r: Post)
    ensures user in r.likedBy <==> user !in p.likedBy
    ensures r.likes - p.likes == (if user in r.likedBy then 1 else -1)
    ensures user !in p.likedBy ==> r.likedBy == p.likedBy + [user]
    ensures user in p.likedBy ==> r.likedBy == RemoveAll(p.likedBy, user)
    ensures r.(likes := p.likes, likedBy := p.likedBy) == p
  {
    var isLiked := user in p.likedBy;
    p.(likes := if isLiked then p.likes - 1 else p.likes + 1,
       likedBy := if isLiked then RemoveAll(p.likedBy, user) else p.likedBy + [user])
  }

  /** The like handler's `map`: every post whose id is `postId` is toggled,
      every other post is kept as it is, at the same position. */
  function Like(posts: seq<Post>, postId: string, user: string): (r: seq<Post>)
    ensures |r| == |posts|
    ensures forall i :: 0 <= i < |posts| ==>
      r[i] == if posts[i].id == postId then Toggle(posts[i], user) else posts[i]
  {
    if posts == [] then []
    else
      var head := if posts[0].id == postId then Toggle(posts[0], user) else posts[0];
      [head] + Like(posts[1..], postId, user)
  }

  /** The delete handler's `filter`: the posts kept are exactly those whose
      id differs from `postId`. */
  function Delete(posts: seq<Post>, postId: string): (r: seq<Post>)
    ensures forall p :: p in r <==> p in posts && p.id != postId
    ensures |r| <= |posts|
  {
    if posts == [] then []
    else
      var tail := Delete(posts[1..], postId);
      if posts[0].id == postId then tail else [posts[0]] + tail
  }

  // ---------------------------------------------------------------------
  // Create

  /** A new post keeps the feed's invariant. */
  lemma CreateKeepsInvariant(posts: seq<Post>, draft: Draft, id: string, createdAt: int, user: string)
    requires FeedInvariant(posts, user)
    ensures FeedInvariant([NewPost(draft, id, createdAt)] + posts, user)
  {
  }

  // ---------------------------------------------------------------------
  // Toggle on one post

  lemma {:induction false} RemoveAllAppend(a: seq<string>, b: seq<string>, user: string)
    ensures RemoveAll(a + b, user) == RemoveAll(a, user) + RemoveAll(b, user)
  {
    if a == [] {
      assert a + b == b;
    } else {
      assert (a + b)[0] == a[0] && (a + b)[1..] == a[1..] + b;
      RemoveAllAppend(a[1..], b, user);
    }
  }

  /** Filtering out a user who occurs exactly once shortens the list by one. */
  lemma {:induction false} RemoveAllOnce(s: seq<string>, user: string)
    requires NoDuplicates(s) && user in s
    ensures |RemoveAll(s, user)| == |s| - 1
  {
    if s[0] == user {
      assert user !in s[1..] by {
        forall j | 1 <= j < |s| ensures s[j] != user {
          assert s[0] != s[j];
        }
      }
    } else {
      assert user in s[1..];
      RemoveAllOnce(s[1..], user);
    }
  }

  lemma {:induction false} RemoveAllNoDuplicates(s: seq<string>, user: string)
    requires NoDuplicates(s)
    ensures NoDuplicates(RemoveAll(s, user))
  {
    if s != [] {
      RemoveAllNoDuplicates(s[1..], user);
      var tail := RemoveAll(s[1..], user);
      if s[0] != user {
        assert s[0] !in s[1..] by {
          forall j | 1 <= j < |s| ensures s[j] != s[0] {
            assert s[0] != s[j];
          }
        }
        var r := [s[0]] + tail;
        forall i, j | 0 <= i < j < |r| ensures r[i] != r[j] {
          if i == 0 {
            assert r[j] == tail[j - 1];
          } else {
            assert r[i] == tail[i - 1] && r[j] == tail[j - 1];
          }
        }
      }
    }
  }

  /** Toggling keeps a post's counter in step with its likers and keeps the
      likers free of repeats. */
  lemma ToggleKeepsConsistent(p: Post, user: string)
    requires LikesConsistent(p)
    ensures LikesConsistent(Toggle(p, user))
  {
    if user in p.likedBy {
      RemoveAllOnce(p.likedBy, user);
      RemoveAllNoDuplicates(p.likedBy, user);
    } else {
      var s := p.likedBy + [user];
      forall i, j | 0 <= i < j < |s| ensures s[i] != s[j] {
        if j == |s| - 1 {
          assert s[i] == p.likedBy[i];
        }
      }
    }
  }

  /** In a feed with a single liking user, toggling by that user keeps the
      post's likers at nobody or that user alone. */
  lemma ToggleKeepsOnlyLikedBy(p: Post, user: string)
    requires OnlyLikedBy(p, user)
    ensures OnlyLikedBy(Toggle(p, user), user)
  {
  }

  /** Toggling twice restores the post when the user is not among the likers,
      or is the last of them and appears only there. */
  lemma {:induction false} ToggleTwice(p: Post, user: string)
    requires user !in p.likedBy
      || (p.likedBy != [] && p.likedBy[|p.likedBy| - 1] == user && user !in p.likedBy[..|p.likedBy| - 1])
    ensures Toggle(Toggle(p, user), user) == p
  {
    var s := p.likedBy;
    if user !in s {
      RemoveAllAppend(s, [user], user);
      assert RemoveAll([user], user) == [];
    } else {
      var front := s[..|s| - 1];
      assert s == front + [user];
      RemoveAllAppend(front, [user], user);
      assert RemoveAll([user], user) == [];
    }
  }

  /** With several likers, toggling twice keeps the counter and the set of
      likers but can change their order: here "current-user" moves from the
      front to the back. */
  lemma ToggleTwiceMayReorder()
    ensures var p := Post("1", Creator("A", None), "caption", None, None, 2, [CURRENT_USER, "other"], 0);
      var q := Toggle(Toggle(p, CURRENT_USER), CURRENT_USER);
      q.likes == p.likes && q.likedBy == ["other", CURRENT_USER] && q != p
  {
  }

  // ---------------------------------------------------------------------
  // Like over the list

  /** Liking keeps the list's ids in order; an id that matches no post leaves
      the list as it was. */
  lemma LikeKeepsIds(posts: seq<Post>, postId: string, user: string)
    ensures Ids(Like(posts, postId, user)) == Ids(posts)
    ensures postId !in Ids(posts) ==> Like(posts, postId, user) == posts
  {
  }

  /** Liking keeps every post's counter consistent with its likers. */
  lemma LikeKeepsConsistent(posts: seq<Post>, postId: string, user: string)
    requires forall i :: 0 <= i < |posts| ==> LikesConsistent(posts[i])
    ensures var r := Like(posts, postId, user);
      forall i :: 0 <= i < |r| ==> LikesConsistent(r[i])
  {
    var r := Like(posts, postId, user);
    forall i | 0 <= i < |r| ensures LikesConsistent(r[i]) {
      if posts[i].id == postId {
        ToggleKeepsConsistent(posts[i], user);
      }
    }
  }

  /** Liking by the single liking user keeps the feed's invariant. */
  lemma LikeKeepsInvariant(posts: seq<Post>, postId: string, user: string)
    requires FeedInvariant(posts, user)
    ensures FeedInvariant(Like(posts, postId, user), user)
  {
  }

  /** In a feed that keeps its invariant, liking the same id twice gives the
      list back unchanged. */
  lemma LikeTwice(posts: seq<Post>, postId: string, user: string)
    requires FeedInvariant(posts, user)
    ensures Like(Like(posts, postId, user), postId, user) == posts
  {
    var once := Like(posts, postId, user);
    var twice := Like(once, postId, user);
    forall i | 0 <= i < |posts| ensures twice[i] == posts[i] {
      if posts[i].id == postId {
        assert OnlyLikedBy(posts[i], user);
        ToggleTwice(posts[i], user);
      }
    }
  }

  // ---------------------------------------------------------------------
  // Delete

  /** Deleting distributes over concatenation, so it keeps the surviving posts
      in their order. */
  lemma {:induction false} DeleteAppend(a: seq<Post>, b: seq<Post>, postId: string)
    ensures Delete(a + b, postId) == Delete(a, postId) + Delete(b, postId)
  {
    if a == [] {
      assert a + b == b;
    } else {
      assert (a + b)[0] == a[0] && (a + b)[1..] == a[1..] + b;
      DeleteAppend(a[1..], b, postId);
    }
  }

  /** The ids left after a delete are the old ids with `postId` filtered
      out, in their order. */
  lemma {:induction false} DeleteIds(posts: seq<Post>, postId: string)
    ensures Ids(Delete(posts, postId)) == RemoveAll(Ids(posts), postId)
  {
    if posts != [] {
      DeleteIds(posts[1..], postId);
      var tail := Delete(posts[1..], postId);
      assert Ids(posts) == [posts[0].id] + Ids(posts[1..]);
      if posts[0].id != postId {
        assert Ids([posts[0]] + tail) == [posts[0].id] + Ids(tail);
      }
    }
  }

  /** Deleting an id that no post has leaves the list identical. */
  lemma {:induction false} DeleteAbsent(posts: seq<Post>, postId: string)
    requires postId !in Ids(posts)
    ensures Delete(posts, postId) == posts
  {
    if posts != [] {
      assert Ids(posts) == [posts[0].id] + Ids(posts[1..]);
      DeleteAbsent(posts[1..], postId);
      assert [posts[0]] + posts[1..] == posts;
    }
  }

  /** Deleting keeps the feed's invariant. */
  lemma DeleteKeepsInvariant(posts: seq<Post>, postId: string, user: string)
    requires FeedInvariant(posts, user)
    ensures FeedInvariant(Delete(posts, postId), user)
  {
  }
}
