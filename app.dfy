/** The feed component: the list of posts, newest first, and whether the
    composer is shown. Each handler replaces the list as a whole with the
    result of the matching function of `Posts`. */
module App {
  import opened Types
  import opened Posts
  import Text
  import Composer

  class Feed {
    var posts: seq<Post>
    var showForm: bool

    /** Every post's counter equals its number of likers, and the likers are
        nobody or the current user alone. */
    ghost predicate Valid()
      reads this
    {
      FeedInvariant(posts, CURRENT_USER)
    }

    /** The feed starts empty with the composer hidden. */
    constructor ()
      ensures Valid() && posts == [] && !showForm
    {
      posts := [];
      showForm := false;
    }

    /** The header button: shows the composer when hidden, hides it when
        shown, and leaves the posts alone. */
    method ToggleForm()
      modifies this`showForm
      ensures showForm == !old(showForm)
    {
      showForm := !showForm;
    }

    /** `handleCreatePost`. `clockMs` is the millisecond clock read that
        becomes the id (as its decimal text) and `createdAt` the creation
        instant. The new post goes in front of the old ones, which keep their
        order, and the composer is hidden. */
    method HandleCreatePost(draft: Draft, clockMs: nat, createdAt: int)
      requires Valid()
      modifies this
      ensures Valid()
      ensures posts == [NewPost(draft, Text.Decimal(clockMs), createdAt)] + old(posts)
      ensures !showForm
    {
      var post := NewPost(draft, Text.Decimal(clockMs), createdAt);
      CreateKeepsInvariant(posts, draft, Text.Decimal(clockMs), createdAt, CURRENT_USER);
      posts := [post] + posts;
      showForm := false;
    }

    /** `handleLike`: the current user's like is toggled on every post whose
        id is `postId`; the composer's visibility is not touched. */
    method HandleLike(postId: string)
      requires Valid()
      modifies this`posts
      ensures Valid()
      ensures posts == Like(old(posts), postId, CURRENT_USER)
    {
      LikeKeepsInvariant(posts, postId, CURRENT_USER);
      posts := Like(posts, postId, CURRENT_USER);
    }

    /** `handleDelete`: the posts whose id is `postId` are dropped. */
    method HandleDelete(postId: string)
      requires Valid()
      modifies this`posts
      ensures Valid()
      ensures posts == Delete(old(posts), postId)
    {
      DeleteKeepsInvariant(posts, postId, CURRENT_USER);
      posts := Delete(posts, postId);
    }
  }

  /** A session: open the composer, type "Hello" and submit, like the post,
      like it again, delete it. What each step leaves behind follows from the
      handlers' contracts alone. */
  method Session(clockMs: nat, createdAt: int)
  {
    var feed := new Feed();
    var form := new Composer.PostForm();
    feed.ToggleForm();
    assert feed.showForm;

    form.SetCaption("Hello");
    assert !Text.AllWhitespace(form.caption) by {
      assert !Text.IsWhitespace(form.caption[0]);
    }
    var submitted := form.HandleSubmit();
    assert submitted == Some(Draft(Creator("John Doe", None), "Hello", None, None));
    assert form.caption == "" && form.name == "John Doe";

    feed.HandleCreatePost(submitted.value, clockMs, createdAt);
    assert |feed.posts| == 1 && feed.posts[0].likes == 0 && !feed.showForm;
    var id := feed.posts[0].id;

    feed.HandleLike(id);
    assert feed.posts[0].likes == 1 && CURRENT_USER in feed.posts[0].likedBy;

    feed.HandleLike(id);
    assert feed.posts[0].likes == 0 && CURRENT_USER !in feed.posts[0].likedBy;

    ghost var before := feed.posts;
    assert Ids(before) == [id];
    feed.HandleDelete(id);
    assert |Ids(feed.posts)| == 0;
    assert feed.posts == [];
  }
}
