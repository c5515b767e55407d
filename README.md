# Simple social feed: a Dafny model

The repository is a small client-side feed written in React. A user composes
posts that have a caption, an optional image URL and optional tags. The user
can like, unlike and delete posts. Everything lives in memory. This project
models the feed's logic:

- the feed component's state (`src/App.tsx`). It holds the list of posts,
  newest first, and a flag for whether the composer is shown. Its handlers
  create a post, toggle the current user's like and delete a post;
- the text derived for display: the relative age of a post (`formatDate`)
  and the `#tag` labels cut from its tags string;
- the composer (`src/components/PostForm.tsx`). It has four text fields. Its
  submit handler rejects a blank caption, hands a draft to the feed and then
  clears the fields.

Files and modules:

- `types.dfy`, module `Types`: the `Post` record, the `Draft` the composer
  submits, `Option` for properties that may be `undefined`, and the fixed
  user id `"current-user"`.
- `text.dfy`, module `Text`: the JavaScript string operations the code uses.
  These are `trim`, `split` on one character and the decimal text of a
  number. Each comes with its partner: `Join` for `Split`, `ParseDecimal`
  for `Decimal`.
- `posts.dfy`, module `Posts`: the post operations as functions on
  `seq<Post>`. `NewPost` makes a post, `Toggle` toggles one like, `Like` is
  the `map` of the like handler and `Delete` is the `filter` of the delete
  handler. The module also holds the lemmas about them.
- `format.dfy`, module `Format`: `formatDate` as the threshold ladder
  `AgeOf` plus its rendering, the reader `ParseAge` that inverts the
  rendering, and the tag labels.
- `app.dfy`, module `App`: class `Feed`. Its fields are `posts` and
  `showForm`, and each handler is a method that replaces the list with the
  matching function's result. The method `Session` is a client. It composes
  "Hello", creates the post, likes it twice and deletes it, and checks each
  step against the contracts.
- `post_form.dfy`, module `Composer`: class `PostForm`. Its fields are
  `name`, `caption`, `imageUrl` and `tags`, and it has the four `onChange`
  setters and `HandleSubmit`.

Points where the code's behaviour is easy to misread:

- The feed's create handler does not look at the caption. Only the
  composer's submit handler rejects a blank caption, so `NewPost` and
  `Feed.HandleCreatePost` accept any draft.
- `likedBy` is an array, not a set. Unliking removes every occurrence of the
  user and liking appends the user at the end. So "toggling twice restores
  the post" holds exactly only when the user is absent, or is the last liker
  and appears once (`Posts.ToggleTwice`). In this feed only `"current-user"`
  ever likes, so every post's likers are `[]` or `["current-user"]`
  (`Posts.FeedInvariant`), and liking twice restores the list
  (`Posts.LikeTwice`). With several likers, two toggles can change the
  likers' order (`Posts.ToggleTwiceMayReorder`).
- The code hard-wires the liking user. The pure functions take the user as a
  parameter, and the `Feed` handlers pass `"current-user"`, as the code does.
- Delete drops every post with the given id, not just one. Ids come from the
  millisecond clock and are not guaranteed unique.

Inputs from outside the program are parameters. `Feed.HandleCreatePost`
takes the millisecond clock read that becomes the id (`Date.now().toString()`)
and the creation instant as an integer. `FormatDate` takes the difference in
whole seconds, and `DiffInSeconds` turns two millisecond instants into that
difference.

## Model

| member | source | states |
|---|---|---|
| `Text.Trim` | src/components/PostForm.tsx:21 | the trimmed text is the middle of the input with only whitespace cut off either side; it is empty exactly when the input is all whitespace, and otherwise starts and ends with a non-whitespace character |
| `Text.IsBlank` | src/components/PostForm.tsx:21 | `!caption.trim()` holds exactly when every character of the caption is whitespace, the empty caption included |
| `Text.Split` | src/App.tsx:123 | `split(',')` gives one more piece than there are commas, no piece holds a comma, and joining the pieces with commas gives the input back |
| `Text.SplitJoin` | src/App.tsx:123 | the other direction of the round trip: comma-free pieces are recovered by splitting their join |
| `Text.Decimal` | src/App.tsx:13 | a number's decimal text (the id and the counts in the age text) is a non-empty digit string with no leading zero that reads back as the number |
| `Text.DecimalOfParse` | src/App.tsx:13 | the other direction: every digit string without a leading zero is the decimal text of the number it reads as, so the text of a number is unique |
| `Posts.NewPost` | src/App.tsx:10-17 | a created post carries the draft unchanged (`DraftOf` gives it back), the given id and instant, zero likes and no likers |
| `Posts.CreateKeepsInvariant` | src/App.tsx:11-18 | a created post keeps the feed invariant (counter equals likers, likers are nobody or the current user) |
| `Posts.RemoveAll` | src/App.tsx:31 | the filter keeps exactly the likers other than the user, never lengthens the list, and changes nothing when the user is absent |
| `Posts.RemoveAllOnce` | src/App.tsx:29-31 | removing a user who appears once among duplicate-free likers shortens them by exactly one, matching the counter's decrement |
| `Posts.RemoveAllNoDuplicates` | src/App.tsx:31 | filtering keeps likers free of repeats |
| `Posts.Toggle` | src/App.tsx:24-33 | the user's like flips; the counter moves by one in the direction of the flip; a like is appended after the other likers and an unlike removes every occurrence; no other field changes |
| `Posts.ToggleKeepsConsistent` | src/App.tsx:26-32 | for any liking user, a counter equal to the number of duplicate-free likers stays so after a toggle |
| `Posts.ToggleKeepsOnlyLikedBy` | src/App.tsx:25-32 | toggling by the single liking user keeps the likers at nobody or that user alone, with the counter in step |
| `Posts.ToggleTwice` | src/App.tsx:26-32 | two toggles by the same user restore the post when the user is absent, or is the last liker and appears only there |
| `Posts.ToggleTwiceMayReorder` | src/App.tsx:30-32 | with likers `["current-user", "other"]` two toggles keep the counter but give `["other", "current-user"]` |
| `Posts.Like` | src/App.tsx:22-37 | the map keeps the length; each post with the id is toggled and every other post is kept at its position |
| `Posts.LikeKeepsIds` | src/App.tsx:23-35 | liking keeps the ids in order, and an id matching no post leaves the list unchanged |
| `Posts.LikeKeepsConsistent` | src/App.tsx:22-37 | liking keeps every post's counter equal to its duplicate-free likers |
| `Posts.LikeKeepsInvariant` | src/App.tsx:22-37 | liking by the current user keeps the feed invariant |
| `Posts.LikeTwice` | src/App.tsx:22-37 | in a feed that keeps its invariant, liking the same id twice gives back the original list |
| `Posts.Delete` | src/App.tsx:39-41 | the kept posts are exactly those with another id, and the list never grows |
| `Posts.DeleteAppend` | src/App.tsx:40 | delete distributes over concatenation, so the kept posts stay in their order |
| `Posts.DeleteIds` | src/App.tsx:40 | the ids left are the old ids with the deleted id filtered out, in order |
| `Posts.DeleteAbsent` | src/App.tsx:40 | deleting an id that no post has leaves the list identical |
| `Posts.DeleteKeepsInvariant` | src/App.tsx:40 | deleting keeps the feed invariant |
| `Format.DiffInSeconds` | src/App.tsx:46 | the second count is the millisecond difference divided by 1000 and rounded down, for negative differences too |
| `Format.AgeOf` | src/App.tsx:48-51 | "just now" exactly below 60 s; minutes in 1..59 from 60 s to under 3600 s; hours in 1..23 below 86400 s; days of at least 1 from there on; each count is the difference in its unit rounded down |
| `Format.Render` | src/App.tsx:48-51 | an age's text is "Just now" exactly for the under-a-minute age; any other age is shown as its count and unit |
| `Format.RenderParse` | src/App.tsx:48-51 | every rendered age reads back as the age it came from |
| `Format.ParseAgeCanonical` | src/App.tsx:49-51 | whatever reads as an age is exactly that age's text, digits included, so no other text stands for the same age |
| `Format.FormatDate` | src/App.tsx:43-52 | the text is "Just now" exactly when the difference is below a minute |
| `Format.FormatDateReadsBack` | src/App.tsx:48-51 | the text shown reads back as the unit and the rounded-down count that `AgeOf` fixes, and it is the only text that does |
| `Format.FormatDateExamples` | src/App.tsx:48-51 | 30 s, 5 min, 2 h and 3 days show as "Just now", "5 minutes ago", "2 hours ago" and "3 days ago" |
| `Format.FormatDateNoSingular` | src/App.tsx:49-51 | one of each unit is still plural ("1 minutes ago", "1 hours ago", "1 days ago") and a negative difference shows "Just now" |
| `Format.TagLabel` | src/App.tsx:124-126 | a label is `#` followed by exactly the trimmed piece: no whitespace right after the `#` or at the end, and a comma only if the piece has one |
| `Format.TagLabels` | src/App.tsx:121-127 | no labels for absent or empty tags; otherwise one label per comma-separated piece, in order, the `i`-th being `#` and the `i`-th piece trimmed, and no label holding a comma |
| `Composer.OrAbsent` | src/components/PostForm.tsx:26-27 | the empty string becomes absent, any other string is passed on unchanged |
| `Composer.PostForm.constructor` | src/components/PostForm.tsx:14-17 | a fresh form holds "John Doe" as the name and empty caption, image URL and tags |
| `Composer.PostForm.SetName` | src/components/PostForm.tsx:46 | typing in the name input sets the name |
| `Composer.PostForm.SetCaption` | src/components/PostForm.tsx:58 | typing in the caption area sets the caption |
| `Composer.PostForm.SetImageUrl` | src/components/PostForm.tsx:73 | typing in the image URL input sets the image URL |
| `Composer.PostForm.SetTags` | src/components/PostForm.tsx:86 | typing in the tags input sets the tags |
| `Composer.PostForm.HandleSubmit` | src/components/PostForm.tsx:19-34 | a blank caption submits nothing and changes no field; otherwise exactly one draft is submitted, with the name and the caption as typed and empty optional fields as absent; caption, image URL and tags end empty and the name field is not touched |
| `App.Feed.constructor` | src/App.tsx:7-8 | the feed starts with no posts, the composer hidden and the invariant holding |
| `App.Feed.ToggleForm` | src/App.tsx:61 | the header button flips whether the composer is shown |
| `App.Feed.HandleCreatePost` | src/App.tsx:10-20 | the list becomes the new post (id from the clock) followed by the old list, the composer is hidden and the invariant holds |
| `App.Feed.HandleLike` | src/App.tsx:22-37 | the list becomes `Like` of the old list for the current user and the invariant holds |
| `App.Feed.HandleDelete` | src/App.tsx:39-41 | the list becomes `Delete` of the old list and the invariant holds |

## Left out

- Rendering: the JSX, CSS classes, icons, the image element, the avatar
  initial and the empty-feed message are presentation only. The heart's
  filled state at src/App.tsx:87 is membership of `"current-user"` in
  `likedBy`, which `Posts.Toggle` states.
- Clock reads: `Date.now()` and `new Date()` (src/App.tsx:13, 16, 44-45)
  become parameters. `createdAt` is an integer number of milliseconds, not an
  ISO string, so the parse at src/App.tsx:44 is not modelled. Id uniqueness is
  not claimed, because the code takes ids from the millisecond clock.
- Floating point: `Math.floor((now - date) / 1000)` is modelled as integer
  division rounded down (`Format.DiffInSeconds`). Rounding of the
  floating-point quotient is not modelled.
- React state semantics: batching, stale closures and re-rendering are not
  modelled. Each handler is one atomic update of the component's fields.
- `Text.Trim`: the whitespace set is space, tab, line feed, carriage return,
  vertical tab, form feed, no-break space, byte-order mark, and the line and
  paragraph separators. The other Unicode space separators that JavaScript's
  `trim` also strips are not in the set.
- Browser form validation (`required`, `type="url"`) is enforced by the
  browser, not by the code.
- The object spread `...newPost` copies whatever the draft carries. The
  model's `Draft` has exactly the four fields the composer sends.
- Unmounting the composer: the form exists only while `showForm` holds
  (src/App.tsx:73-77). Creating a post hides it (src/App.tsx:19) and so does
  Cancel (src/App.tsx:61), so the next form starts afresh with the name
  "John Doe" and empty fields (src/components/PostForm.tsx:14-17). The model
  keeps one `PostForm` object, and `Feed.showForm` is not tied to that
  object's lifetime. So the reset that hiding the composer causes is not
  captured.
