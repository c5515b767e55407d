/** The records of the feed: a post as the feed stores it, and the draft the
    composer hands to the feed. */
module Types {

  /** An optional field: `None` stands for a property that is `undefined`. */
  datatype Option<+T> = None | Some(value: T)

  /** The author of a post. */
  datatype Creator = Creator(name: string, imageUrl: Option<string>)

  /** One feed entry. `createdAt` is the creation instant as an integer number
      of milliseconds; `likes` is kept equal to the length of `likedBy` by every
      operation of the feed. */
  datatype Post = Post(
    id: string,
    creator: Creator,
    caption: string,
    imageUrl: Option<string>,
    tags: Option<string>,
    likes: int,
    likedBy: seq<string>,
    createdAt: int
  )

  /** What the composer submits: a post without `id`, `likes`, `likedBy` and
      `createdAt`, which the feed fills in. */
  datatype Draft = Draft(
    creator: Creator,
    caption: string,
    imageUrl: Option<string>,
    tags: Option<string>
  )

  /** The single hard-wired user identity that likes posts. */
  const CURRENT_USER: string := "current-user"
}
