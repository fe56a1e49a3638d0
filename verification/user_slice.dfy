/** The user profile store: one profile record, a merge-update that persists
    the result, and hydration from storage. */
module UserSlice {
  import opened Entities
  import opened Storage

  /** `Partial<User>`: a field is None when the key is not in the object. */
  datatype PartialUser = PartialUser(name: Option<string>, bio: Option<string>, profilePicture: Option<string>)

  const InitialUser: User := User(
    "Meme Lover",
    "I love creating and sharing memes!",
    "/placeholder.svg?height=200&width=200")

  const NoChanges: PartialUser := PartialUser(None, None, None)

  function Pick(given: Option<string>, current: string): string
  {
    if given.Some? then given.value else current
  }

  /** `{ ...user, ...partial }`. */
  function Merge(user: User, partial: PartialUser): User
  {
    User(Pick(partial.name, user.name), Pick(partial.bio, user.bio),
         Pick(partial.profilePicture, user.profilePicture))
  }

  /** The merge overwrites exactly the fields the partial carries. */
  lemma MergeOverridesGiven(user: User, partial: PartialUser)
    ensures partial.name.Some? ==> Merge(user, partial).name == partial.name.value
    ensures partial.name.None? ==> Merge(user, partial).name == user.name
    ensures partial.bio.Some? ==> Merge(user, partial).bio == partial.bio.value
    ensures partial.bio.None? ==> Merge(user, partial).bio == user.bio
    ensures partial.profilePicture.Some? ==> Merge(user, partial).profilePicture == partial.profilePicture.value
    ensures partial.profilePicture.None? ==> Merge(user, partial).profilePicture == user.profilePicture
  {
  }

  /** An empty partial changes nothing. */
  lemma MergeNoChanges(user: User)
    ensures Merge(user, NoChanges) == user
  {
  }

  /** Applying the same partial twice is applying it once. */
  lemma MergeIdempotent(user: User, partial: PartialUser)
    ensures Merge(Merge(user, partial), partial) == Merge(user, partial)
  {
  }

  /** A partial carrying every field replaces the profile outright, whatever it was. */
  lemma MergeComplete(user: User, other: User, partial: PartialUser)
    requires partial.name.Some? && partial.bio.Some? && partial.profilePicture.Some?
    ensures Merge(user, partial) == Merge(other, partial)
    ensures Merge(user, partial) == User(partial.name.value, partial.bio.value, partial.profilePicture.value)
  {
  }

  /** The store does not validate: an empty name is taken as given. */
  lemma MergeAcceptsEmptyName(user: User)
    ensures Merge(user, PartialUser(Some(""), None, None)).name == ""
  {
  }

  class UserStore {
    var currentUser: User
    const storage: LocalStorage

    /** The placeholder profile. */
    constructor (storage: LocalStorage)
      ensures this.storage == storage && currentUser == InitialUser
    {
      this.storage := storage;
      currentUser := InitialUser;
    }

    /** `updateProfile`: merges the partial into the profile and persists the result. */
    method UpdateProfile(partial: PartialUser)
      modifies this`currentUser, storage`userProfile
      ensures currentUser == Merge(old(currentUser), partial)
      ensures storage.userProfile == Some(currentUser)
    {
      currentUser := Merge(currentUser, partial);
      storage.userProfile := Some(currentUser);
    }

    /** `loadUserProfile`: takes the whole persisted profile when the key is present. */
    method LoadUserProfile()
      modifies this`currentUser
      ensures storage.userProfile.Some? ==> currentUser == storage.userProfile.value
      ensures storage.userProfile.None? ==> currentUser == old(currentUser)
    {
      if storage.userProfile.Some? {
        currentUser := storage.userProfile.value;
      }
    }
  }
}
