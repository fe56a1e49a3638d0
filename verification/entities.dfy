/** The records the meme store and the user store hold. */
module Entities {

  datatype Option<+T> = None | Some(value: T)

  datatype Result<+T, +E> = Ok(value: T) | Err(error: E)

  /** A comment on a meme; `date` is a timestamp in milliseconds. */
  datatype Comment = Comment(id: string, text: string, user: string, date: int)

  /** A meme record.
      `likes` is 0 when the record carries no like count, and `comments` is empty
      when it carries no comment list: every reader of a meme treats the missing
      value and these two the same. `date` is a timestamp in milliseconds.
      `category` and `user` are optional: a missing category equals no label, and
      a meme has an owner only when `user` is present and non-empty. */
  datatype Meme = Meme(
    id: string,
    name: string,
    url: string,
    width: int,
    height: int,
    boxCount: int,
    captions: Option<nat>,
    likes: nat,
    comments: seq<Comment>,
    date: int,
    category: Option<string>,
    user: Option<string>)

  /** The local user's profile. */
  datatype User = User(name: string, bio: string, profilePicture: string)

  function Min(a: int, b: int): int { if a <= b then a else b }

  function Max(a: int, b: int): int { if a >= b then a else b }
}
