/** The profile page: the liked memes it lists, the picture check, and the
    edit form's save and cancel. */
module Profile {
  import opened Entities
  import opened Text
  import opened Seqs
  import opened ImageFiles
  import opened MemesSlice
  import opened UserSlice
  import Upload

  const MaxPictureBytes: nat := 2 * 1024 * 1024

  // ---------------------------------------------------------------------------
  // Liked memes

  function IsLiked(liked: seq<string>): Meme -> bool
  {
    (m: Meme) => m.id in liked
  }

  /** `items.filter((meme) => likedMemes.includes(meme.id))`. */
  function LikedMemesData(items: seq<Meme>, liked: seq<string>): (r: seq<Meme>)
    ensures |r| <= |items|
    ensures forall i :: 0 <= i < |r| ==> r[i] in items && r[i].id in liked
    ensures forall i :: 0 <= i < |items| ==> (items[i] in r <==> items[i].id in liked)
  {
    var r := Filter(items, IsLiked(liked));
    assert forall i :: 0 <= i < |r| ==> IsLiked(liked)(r[i]);
    r
  }

  /** The list keeps the catalogue's order: it is built part by part. */
  lemma LikedMemesOrder(a: seq<Meme>, b: seq<Meme>, liked: seq<string>)
    ensures LikedMemesData(a + b, liked) == LikedMemesData(a, liked) + LikedMemesData(b, liked)
  {
    FilterConcat(a, b, IsLiked(liked));
  }

  /** Nothing liked lists nothing; everything liked lists the whole catalogue. */
  lemma LikedMemesExtremes(items: seq<Meme>, liked: seq<string>)
    ensures LikedMemesData(items, []) == []
    ensures (forall i :: 0 <= i < |items| ==> items[i].id in liked) ==> LikedMemesData(items, liked) == items
  {
    FilterNone(items, IsLiked([]));
    if forall i :: 0 <= i < |items| ==> items[i].id in liked {
      FilterAll(items, IsLiked(liked));
    }
  }

  /** After a toggle of `id`, the meme with that id is listed exactly when it
      was not liked before, and every other meme is listed as before. */
  lemma LikedAfterToggle(items: seq<Meme>, liked: seq<string>, id: string)
    ensures forall i :: 0 <= i < |items| && items[i].id == id ==>
      (items[i] in LikedMemesData(items, ToggledIds(liked, id)) <==> id !in liked)
    ensures forall i :: 0 <= i < |items| && items[i].id != id ==>
      (items[i] in LikedMemesData(items, ToggledIds(liked, id)) <==> items[i] in LikedMemesData(items, liked))
  {
  }

  // ---------------------------------------------------------------------------
  // Profile picture

  /** `handleProfilePictureChange`: no file or a refused one keeps the current
      picture; an accepted one is replaced by its preview (`preview` stands for
      what the file reader produces). */
  function PictureChange(file: Option<FileInfo>, preview: string, current: string): (r: string)
    ensures file.None? ==> r == current
    ensures file.Some? && !IsImageType(file.value.mimeType) ==> r == current
    ensures file.Some? && file.value.size > MaxPictureBytes ==> r == current
    ensures file.Some? && IsImageType(file.value.mimeType) && file.value.size <= MaxPictureBytes ==> r == preview
  {
    match file
    case None => current
    case Some(f) => if CheckImage(f, MaxPictureBytes).None? then preview else current
  }

  /** The profile page is stricter than the upload page: a file between 2 MiB
      and 5 MiB makes a meme but not a profile picture. */
  lemma PictureLimitBelowUpload(f: FileInfo, preview: string, current: string, title: string)
    requires IsImageType(f.mimeType) && MaxPictureBytes < f.size <= Upload.MaxUploadBytes
    requires preview != current
    ensures PictureChange(Some(f), preview, current) == current
    ensures Upload.HandleFileChange(Some(f), title).Accepted?
  {
  }

  // ---------------------------------------------------------------------------
  // The edit form

  /** The page's local form state. */
  datatype ProfileForm = ProfileForm(editing: bool, name: string, bio: string, profilePicture: string)

  /** The form as the page first shows it: the current profile, not editing. */
  function FormFor(user: User): (f: ProfileForm)
    ensures !f.editing && f.name == user.name && f.bio == user.bio && f.profilePicture == user.profilePicture
  {
    ProfileForm(false, user.name, user.bio, user.profilePicture)
  }

  /** `handleSaveProfile` before the dispatch: a name that is blank once
      trimmed is refused; otherwise the untrimmed name and the other two
      fields are sent. */
  function SaveProfile(form: ProfileForm): (r: Option<PartialUser>)
    ensures r.None? <==> forall i :: 0 <= i < |form.name| ==> IsSpace(form.name[i])
    ensures r.Some? ==> r.value == PartialUser(Some(form.name), Some(form.bio), Some(form.profilePicture))
  {
    TrimEmptyIff(form.name);
    if Trim(form.name) == "" then None
    else Some(PartialUser(Some(form.name), Some(form.bio), Some(form.profilePicture)))
  }

  /** A saved form becomes the whole profile, whatever the profile was. */
  lemma SaveReplacesProfile(user: User, form: ProfileForm)
    requires SaveProfile(form).Some?
    ensures Merge(user, SaveProfile(form).value) == User(form.name, form.bio, form.profilePicture)
  {
  }

  /** Saving an unedited form of a profile with a non-blank name leaves the profile as it is. */
  lemma SaveUneditedIsNoChange(user: User)
    requires exists i :: 0 <= i < |user.name| && !IsSpace(user.name[i])
    ensures SaveProfile(FormFor(user)).Some?
    ensures Merge(user, SaveProfile(FormFor(user)).value) == user
  {
  }

  /** `handleCancelEdit`: back to the current profile, not editing. */
  function CancelEdit(form: ProfileForm, user: User): (f: ProfileForm)
    ensures f == FormFor(user)
  {
    form.(editing := false, name := user.name, bio := user.bio, profilePicture := user.profilePicture)
  }

  /** `handleSaveProfile`: a valid form replaces the profile (which the store
      persists) and leaves edit mode; a blank name changes nothing. */
  method HandleSaveProfile(store: UserStore, form: ProfileForm) returns (next: ProfileForm, saved: bool)
    modifies store`currentUser, store.storage`userProfile
    ensures saved <==> SaveProfile(form).Some?
    ensures saved ==> store.currentUser == User(form.name, form.bio, form.profilePicture)
    ensures saved ==> store.storage.userProfile == Some(store.currentUser)
    ensures saved ==> next == form.(editing := false)
    ensures !saved ==> next == form && store.currentUser == old(store.currentUser)
    ensures !saved ==> store.storage.userProfile == old(store.storage.userProfile)
  {
    var partial := SaveProfile(form);
    if partial.Some? {
      store.UpdateProfile(partial.value);
      saved := true;
      next := form.(editing := false);
    } else {
      saved := false;
      next := form;
    }
  }

  /** The page's first render followed by its mount effect. The form state is
      initialised from the profile as it stands at first render, and the
      effect that then loads the stored profile does not refresh it. */
  method OpenPage(memes: MemesStore, users: UserStore) returns (form: ProfileForm)
    modifies users`currentUser, memes`userMemes, memes`likedMemes
    ensures form == FormFor(old(users.currentUser))
    ensures users.storage.userProfile.Some? ==> users.currentUser == users.storage.userProfile.value
    ensures users.storage.userProfile.None? ==> users.currentUser == old(users.currentUser)
    ensures memes.storage.userMemes.Some? ==> memes.userMemes == memes.storage.userMemes.value
    ensures memes.storage.userMemes.None? ==> memes.userMemes == old(memes.userMemes)
    ensures memes.storage.likedMemes.Some? ==> memes.likedMemes == memes.storage.likedMemes.value
    ensures memes.storage.likedMemes.None? ==> memes.likedMemes == old(memes.likedMemes)
  {
    form := FormFor(users.currentUser);
    OnMount(memes, users);
  }

  /** Saving the form as first rendered writes the profile it was rendered
      from over the one the mount effect loaded. */
  lemma StaleFormOverwrites(rendered: User, loaded: User)
    requires exists i :: 0 <= i < |rendered.name| && !IsSpace(rendered.name[i])
    ensures SaveProfile(FormFor(rendered)).Some?
    ensures Merge(loaded, SaveProfile(FormFor(rendered)).value) == rendered
  {
  }

  /** On a fresh load the store holds the placeholder profile at first render,
      so an unedited save replaces any other stored profile by the placeholder. */
  lemma FreshLoadSaveWritesPlaceholder(loaded: User)
    requires loaded != InitialUser
    ensures SaveProfile(FormFor(InitialUser)).Some?
    ensures Merge(loaded, SaveProfile(FormFor(InitialUser)).value) == InitialUser != loaded
  {
    assert !IsSpace(InitialUser.name[0]);
    StaleFormOverwrites(InitialUser, loaded);
  }

  /** The page's mount effect: hydrates the profile, the user's memes and the
      liked list from storage. */
  method OnMount(memes: MemesStore, users: UserStore)
    modifies users`currentUser, memes`userMemes, memes`likedMemes
    ensures users.storage.userProfile.Some? ==> users.currentUser == users.storage.userProfile.value
    ensures users.storage.userProfile.None? ==> users.currentUser == old(users.currentUser)
    ensures memes.storage.userMemes.Some? ==> memes.userMemes == memes.storage.userMemes.value
    ensures memes.storage.userMemes.None? ==> memes.userMemes == old(memes.userMemes)
    ensures memes.storage.likedMemes.Some? ==> memes.likedMemes == memes.storage.likedMemes.value
    ensures memes.storage.likedMemes.None? ==> memes.likedMemes == old(memes.likedMemes)
  {
    users.LoadUserProfile();
    memes.LoadUserMemes();
    memes.LoadLikedMemes();
  }
}
