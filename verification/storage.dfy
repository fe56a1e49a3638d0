/** The browser's local storage as the two stores use it. Each field stands for
    the storage key of the same name ("likedMemes", "userMemes", "memeComments",
    "userProfile") and is None while that key is absent. A present field holds
    the value that was serialised under the key, so reading it back is the
    round trip of `JSON.stringify` and `JSON.parse`. */
module Storage {
  import opened Entities

  class LocalStorage {
    var likedMemes: Option<seq<string>>
    var userMemes: Option<seq<Meme>>
    var memeComments: Option<map<string, seq<Comment>>>
    var userProfile: Option<User>

    /** Storage as a new session finds it, left over from earlier sessions. */
    constructor (
      likedMemes: Option<seq<string>>,
      userMemes: Option<seq<Meme>>,
      memeComments: Option<map<string, seq<Comment>>>,
      userProfile: Option<User>)
      ensures this.likedMemes == likedMemes && this.userMemes == userMemes
      ensures this.memeComments == memeComments && this.userProfile == userProfile
    {
      this.likedMemes := likedMemes;
      this.userMemes := userMemes;
      this.memeComments := memeComments;
      this.userProfile := userProfile;
    }
  }
}
