# Meme_verse state model

A Dafny model of the client-side state of Meme_verse, a meme-browsing web app.

- **The meme store** (`MemesSlice.MemesStore`) holds:
  - the fetched catalogue and its trending top ten;
  - the user's own uploads and the liked ids;
  - the fetch status and error;
  - the selected meme and the current search/filter/sort result.
- **The user store** (`UserSlice.UserStore`) holds one profile.
- **Persistence:** both stores write through to browser storage. That storage is modelled as `Storage.LocalStorage`, with one field per key.
- **Page logic:** the pure pieces of the pages sit beside the stores:
  - explore: pagination and the page-button window;
  - leaderboard: the top memes, and the likes per user;
  - upload: the file check, the title made from a file name, the new meme record;
  - profile: the liked list, the picture check, saving and cancelling the form.

Each reducer is a method on its store class. The method's frame names exactly the fields the reducer touches. Its `ensures` ties the new state to a pure function of the old state. The properties are proved about those functions, as lemmas and function contracts:

- the trending list is the ten most liked memes;
- search keeps catalogue order and narrows as the query grows;
- toggling a like twice restores the state;
- comments are append-only;
- the persisted comment map is exactly the commented memes;
- the leaderboard totals are each user's likes;
- the pages together are the result set;
- the title format is idempotent;
- a blank name is never saved.

Modules: `Entities` (records), `Text` (ASCII case, substring, trim), `Seqs` (filter, JavaScript `slice`, descending sort, top k), `Storage`, `MemesSlice`, `UserSlice`, `ImageFiles`, `Explore`, `Leaderboard`, `Upload`, `Profile`.

Representation choices:
- An optional number or list that the code reads with `|| 0` or `|| []` is a `nat` or a `seq`, where 0 and the empty list stand for "missing".
- An optional string is an `Option`.
- Dates are millisecond timestamps.
- Each value of `Math.random()` is a `real` parameter in `[0, 1)`.

## Model

| member | source | states |
|---|---|---|
| MemesSlice.Enriched | redux/features/memes/memesSlice.ts:58-64 | a fetched record keeps its own fields, gets under 1000 likes, no comments, a date in the last 10^10 ms and one of the four category labels |
| MemesSlice.EnrichAll | redux/features/memes/memesSlice.ts:58-64 | the enrichment keeps the number and order of records and gives each the bounds above |
| MemesSlice.FetchPayload | redux/features/memes/memesSlice.ts:49-66 | the thunk fails exactly when the reply reports failure, with "Failed to fetch memes"; otherwise it yields `EnrichAll` of the records: one enriched meme per record, in order, each keeping its own fields |
| MemesSlice.TopByLikes | redux/features/memes/memesSlice.ts:166 | trending has min(10, n) memes, most liked first, drawn from the payload, and no meme left out has more likes than one kept |
| Seqs.SortDesc | redux/features/memes/memesSlice.ts:148 | the sort result is ordered by the key, largest first, and is a permutation of its input |
| Seqs.TopK | redux/features/memes/memesSlice.ts:166 | sort then `slice(0, k)`: min(k, n) entries, ordered, a sub-multiset, and every dropped entry's key is at most every kept one's |
| Seqs.Filter | redux/features/memes/memesSlice.ts:74 | a filter keeps exactly the elements satisfying the predicate and nothing else |
| Seqs.FilterCount | redux/features/memes/memesSlice.ts:96 | a filter keeps each passing element as many times as it occurs and drops every other |
| Seqs.FilterConcat | redux/features/memes/memesSlice.ts:74 | filtering keeps order: filtering a concatenation concatenates the filtered parts |
| Seqs.FilterNarrow | redux/features/memes/memesSlice.ts:74 | filtering by a stronger predicate equals filtering the weaker one's result again |
| Seqs.Slice | app/explore/page.tsx:65 | JavaScript `slice`: for non-negative bounds, the clamped length and the elements from `start` on |
| Text.Lower | redux/features/memes/memesSlice.ts:74 | `toLowerCase` keeps the length and lower-cases each letter |
| Text.LowerKeepsContains | redux/features/memes/memesSlice.ts:74 | a substring stays a substring after lower-casing both strings |
| Text.ContainsTransitive | redux/features/memes/memesSlice.ts:74 | a substring of a substring is a substring |
| MemesSlice.SearchFilter | redux/features/memes/memesSlice.ts:70-75 | search returns exactly the catalogue entries whose name contains the query, ignoring case |
| MemesSlice.SearchEmptyIsAll | redux/features/memes/memesSlice.ts:74 | the empty query returns the whole catalogue in order |
| MemesSlice.SearchConcat | redux/features/memes/memesSlice.ts:74 | search results keep catalogue order |
| MemesSlice.SearchNarrows | redux/features/memes/memesSlice.ts:74 | a query containing another yields the other's results filtered again, so a subsequence of them |
| MemesSlice.CategoryFilter | redux/features/memes/memesSlice.ts:142 | exactly the catalogue entries carrying the category label |
| MemesSlice.FindIndex | redux/features/memes/memesSlice.ts:90 | `find` stops at the first entry with the id, and finds none only when no entry has it |
| MemesSlice.Find | redux/features/memes/memesSlice.ts:90 | a meme is found exactly when some entry has the id, and it is the first entry with that id |
| MemesSlice.FindIndexSameIds | redux/features/memes/memesSlice.ts:99-106 | the lookup depends only on the ids, so updating likes or comments leaves it unchanged |
| MemesSlice.ToggledIds | redux/features/memes/memesSlice.ts:95-102 | after the toggle the id is liked exactly when it was not before; an unlike is the filter that drops every occurrence of the id, keeping the other ids in order and each as often as before; a new like is appended |
| MemesSlice.Bumped | redux/features/memes/memesSlice.ts:100-106 | a zero (missing) count stays zero; otherwise a like adds one and an unlike takes one |
| MemesSlice.ToggledItems | redux/features/memes/memesSlice.ts:98-106 | only the first entry with the id has its count bumped, ids and all other entries are unchanged |
| MemesSlice.ToggleTwiceRestores | redux/features/memes/memesSlice.ts:92-113 | liking a new id and then unliking it restores the liked ids and every like count |
| MemesSlice.UnlikeThenLikeDrifts | redux/features/memes/memesSlice.ts:92-107 | the other order does not restore: unliking then liking again moves the id to the end of the liked list, and a meme at one like ends at zero |
| MemesSlice.UnlikeThenLikeExample | redux/features/memes/memesSlice.ts:92-107 | ["a", "b"] unliked and reliked at "a" becomes ["b", "a"], and one like becomes none |
| MemesSlice.ToggledIdsTwice | redux/features/memes/memesSlice.ts:95-102 | removing an id just appended gives back the liked list it was appended to |
| MemesSlice.ToggledItemsTwice | redux/features/memes/memesSlice.ts:98-106 | a like followed by an unlike of the same id restores every like count, liked before or not |
| MemesSlice.CommentedItems | redux/features/memes/memesSlice.ts:180-184 | the comment is appended to the first entry with the id only; an unknown id changes nothing |
| MemesSlice.CommentsAppendOnly | redux/features/memes/memesSlice.ts:178-184 | after several additions (`CommentedItemsAll`) the entry holds its old comments followed by the new ones in order, and no other entry changes |
| MemesSlice.PersistedComments | redux/features/memes/memesSlice.ts:196-204 | the persisted map's keys are exactly the ids with comments, no value is empty, and the last entry with an id wins |
| MemesSlice.MemesStore.constructor | redux/features/memes/memesSlice.ts:37-46 | the initial state: everything empty, idle, no error, no selection |
| MemesSlice.MemesStore.SetCurrentMeme | redux/features/memes/memesSlice.ts:89-91 | the selection becomes the found entry or none |
| MemesSlice.MemesStore.ToggleLike | redux/features/memes/memesSlice.ts:92-113 | the liked ids and the catalogue become their toggled forms, and the liked ids are persisted |
| MemesSlice.MemesStore.LoadLikedMemes | redux/features/memes/memesSlice.ts:114-121 | the persisted liked list replaces the state when present; otherwise nothing changes |
| MemesSlice.MemesStore.AddUserMeme | redux/features/memes/memesSlice.ts:122-129 | the meme is appended to the user's memes, which are persisted |
| MemesSlice.MemesStore.LoadUserMemes | redux/features/memes/memesSlice.ts:130-137 | the persisted user memes replace the state when present |
| MemesSlice.MemesStore.FilterByCategory | redux/features/memes/memesSlice.ts:138-143 | "All" leaves the result alone; any other label makes it that category's entries |
| MemesSlice.MemesStore.SortMemes | redux/features/memes/memesSlice.ts:144-154 | the result is reordered by likes or date, largest first, as a permutation |
| MemesSlice.MemesStore.FetchPending | redux/features/memes/memesSlice.ts:158-160 | the status becomes loading |
| MemesSlice.MemesStore.FetchFulfilled | redux/features/memes/memesSlice.ts:161-170 | the payload becomes catalogue and result, its top ten by likes the trending list |
| MemesSlice.MemesStore.FetchRejected | redux/features/memes/memesSlice.ts:171-174 | status failed; the error is the message, or the default when it is missing or empty |
| MemesSlice.MemesStore.FetchMemes | redux/features/memes/memesSlice.ts:49-67 | a successful reply fills catalogue, result and trending and keeps the old error; a failed one sets the default error and keeps the data |
| MemesSlice.MemesStore.SearchFulfilled | redux/features/memes/memesSlice.ts:175-177 | the result becomes the payload |
| MemesSlice.MemesStore.Search | redux/features/memes/memesSlice.ts:70-75 | the result becomes the search over the catalogue, and the empty query restores the catalogue |
| MemesSlice.MemesStore.AddComment | redux/features/memes/memesSlice.ts:178-209 | a known id gets the comment, the selection is refreshed when it is that meme, and the comment map is persisted; an unknown id changes and writes nothing |
| UserSlice.MergeOverridesGiven | redux/features/user/userSlice.ts:25-30 | `Merge`, the spread `{ ...state.currentUser, ...action.payload }`, replaces exactly the fields the partial carries and keeps the others |
| UserSlice.MergeNoChanges | redux/features/user/userSlice.ts:25-30 | an empty partial leaves the profile as it is |
| UserSlice.MergeIdempotent | redux/features/user/userSlice.ts:25-30 | applying the same partial twice is applying it once |
| UserSlice.MergeComplete | redux/features/user/userSlice.ts:25-30 | a partial with every field replaces the profile outright |
| UserSlice.MergeAcceptsEmptyName | redux/features/user/userSlice.ts:25-30 | the store itself does not validate the name |
| UserSlice.UserStore.constructor | redux/features/user/userSlice.ts:13-19 | the placeholder profile |
| UserSlice.UserStore.UpdateProfile | redux/features/user/userSlice.ts:25-35 | the profile becomes the merge and is persisted |
| UserSlice.UserStore.LoadUserProfile | redux/features/user/userSlice.ts:36-43 | the persisted profile replaces the state when present |
| ImageFiles.CheckImage | app/upload/page.tsx:37-55 | the type is checked before the size: a non-image type is refused, then a size over the limit, otherwise the file is accepted |
| ImageFiles.ImageAnywhere | app/upload/page.tsx:38 | `IsImageType`, the unanchored `type.match("image.*")`: any type containing "image", anywhere, passes the type check |
| ImageFiles.ShortTypeRejected | app/upload/page.tsx:38 | `IsImageType` refuses a type shorter than "image" |
| Explore.TotalPages | app/explore/page.tsx:26 | the ceiling of n/12: enough pages for n results and no empty last page; zero exactly when there are no results |
| Explore.CurrentItems | app/explore/page.tsx:65 | page p shows at most 12 results, those from position 12(p-1) on, and is non-empty for every page in range |
| Explore.PagesUpToPrefix | app/explore/page.tsx:65 | `PagesUpTo`, the first k pages laid end to end, is the first 12k results |
| Explore.PagesCoverResults | app/explore/page.tsx:26 | all pages together are exactly the result set, in order |
| Explore.PageWindow | app/explore/page.tsx:199-210 | min(5, total) consecutive page numbers |
| Explore.WindowInRange | app/explore/page.tsx:199-210 | for a current page in range every button is a real page, one is the current page, and away from the ends it is in the middle |
| Explore.StepsStayInRange | app/explore/page.tsx:193-227 | `Previous` (the Previous button at line 193) and `Next` (the Next button at line 227) keep the page within [1, total] and move it by one except at the ends |
| Explore.HandleCategoryChange | app/explore/page.tsx:48-57 | selects the label, returns to page 1, and sets the result to the whole catalogue for "All" or to that category otherwise |
| Leaderboard.TopMemes | app/leaderboard/page.tsx:24 | the ten most liked memes, most liked first, taken from the catalogue |
| Leaderboard.IndexOfUser | app/leaderboard/page.tsx:30 | the accumulator lookup finds the user's entry or reports none |
| Leaderboard.AddMemeUsers | app/leaderboard/page.tsx:28-35 | one reduce step adds the meme's owner and keeps users distinct |
| Leaderboard.AddMemeTotal | app/leaderboard/page.tsx:28-35 | one reduce step adds the meme's likes to the sum when it has an owner |
| Leaderboard.AddMemeLikes | app/leaderboard/page.tsx:28-35 | one reduce step keeps every total equal to its user's likes |
| Leaderboard.LikesOfAbsent | app/leaderboard/page.tsx:27-38 | a user owning none of the memes has no likes |
| Leaderboard.UserLikesMapSpec | app/leaderboard/page.tsx:27-38 | for `UserLikesMap`, the `reduce` with `AddMeme` as its step: each owner appears once, only owners appear, each total is that user's likes, and the totals add up to all owned memes' likes |
| Leaderboard.DistinctCount | app/leaderboard/page.tsx:41 | the map has one entry per user |
| Leaderboard.FetchedCatalogueHasNoUsers | app/leaderboard/page.tsx:27-44 | the fetched records name no user (redux/features/memes/memesSlice.ts:58-64), so on the fetched catalogue the per-user totals and the top users are empty |
| Leaderboard.TopUsers | app/leaderboard/page.tsx:41-44 | min(10, owners) users, largest total first, each user once, drawn from the per-user totals with exactly that user's likes, and no user left out has a larger total than a kept one |
| Upload.FileNamePrefix | app/upload/page.tsx:68 | the part of the name before the first dot: a prefix with no dot, followed by a dot when shorter than the name |
| Upload.ReplaceSeparators | app/upload/page.tsx:71 | same length, every dash and underscore becomes a space |
| Upload.TitleCaseOnlyCase | app/upload/page.tsx:72 | `TitleCase`, the `/\w\S*/g` replace read left to right, keeps the length and changes only letter case |
| Upload.TitleCaseSplit | app/upload/page.tsx:72 | the regular-expression scan is left to right: a later part is cased from the state the earlier part leaves |
| Upload.WordStartUpper | app/upload/page.tsx:72 | a word character at the start or after whitespace is upper-cased |
| Upload.AfterWordCharLower | app/upload/page.tsx:72 | a non-space character right after a word character is lower-cased |
| Upload.SpaceKept | app/upload/page.tsx:72 | whitespace is kept in place |
| Upload.InWordAfterMatch | app/upload/page.tsx:72 | the scan state after a prefix is exactly "a match of `\w\S*` is under way": some earlier word character started one and no whitespace has come since |
| Upload.TitleCaseAt | app/upload/page.tsx:72 | every character as the replace leaves it: lower-cased inside a match, upper-cased when it starts one, and kept when it is whitespace or punctuation outside a match |
| Upload.PunctuationExamples | app/upload/page.tsx:72 | "(b" becomes "(B", while "a(b" becomes "A(b" |
| Upload.TitleCaseIdempotent | app/upload/page.tsx:72 | title-casing twice is title-casing once |
| Upload.FormatTitleShape | app/upload/page.tsx:67-75 | `FormatTitle`, the whole chain of split, replace and title case: the title has the prefix's length, no dot, dash or underscore, differs from the spaced prefix only in case, and is a fixed point of the formatting |
| Upload.HandleFileChange | app/upload/page.tsx:32-76 | no file does nothing; a file is refused with `CheckImage`'s problem exactly when it fails a check and is kept otherwise; the title is filled from its name only when the title is empty and the name is not, and is left as it was otherwise |
| Upload.UploadSizeLimit | app/upload/page.tsx:48 | an image of exactly 5 MiB is accepted and one byte more is refused |
| Upload.NewMeme | app/upload/page.tsx:133-146 | the uploaded record: 500x500, two boxes, caption count 1 or 0, no likes or comments, category "New", owned by the user |
| Upload.PrepareUpload | app/upload/page.tsx:115-123 | the upload is refused exactly when there is no file or no title |
| Upload.HandleUpload | app/upload/page.tsx:115-149 | a valid upload appends the new meme to the user's memes and persists them; a refused one changes nothing |
| Profile.LikedMemesData | app/profile/page.tsx:40 | a catalogue entry is listed exactly when its id is liked |
| Profile.LikedMemesOrder | app/profile/page.tsx:40 | the liked list keeps catalogue order |
| Profile.LikedMemesExtremes | app/profile/page.tsx:40 | nothing liked lists nothing; everything liked lists the catalogue |
| Profile.LikedAfterToggle | app/profile/page.tsx:40 | after a toggle the toggled meme is listed exactly when it was not liked before, and others are listed as before |
| Profile.PictureChange | app/profile/page.tsx:42-73 | no file or a refused one keeps the picture; an accepted one replaces it |
| Profile.PictureLimitBelowUpload | app/profile/page.tsx:58 | a file between 2 MiB and 5 MiB is accepted for upload but not as a profile picture |
| Profile.FormFor | app/profile/page.tsx:25-28 | the form starts as the profile as it stands at first render, not editing |
| Profile.SaveProfile | app/profile/page.tsx:75-91 | saving is refused exactly when the name is all whitespace; otherwise all three fields are sent, the name untrimmed |
| Profile.SaveReplacesProfile | app/profile/page.tsx:85-91 | a saved form becomes the whole profile |
| Profile.SaveUneditedIsNoChange | app/profile/page.tsx:75-91 | saving an unedited form of a profile with a non-blank name changes nothing |
| Profile.CancelEdit | app/profile/page.tsx:101-106 | cancelling resets the form to the current profile and leaves edit mode |
| Profile.HandleSaveProfile | app/profile/page.tsx:75-99 | a valid form replaces and persists the profile and leaves edit mode; a blank name changes nothing |
| Profile.OnMount | app/profile/page.tsx:33-37 | mounting hydrates the profile, the user's memes and the liked list from storage |
| Profile.OpenPage | app/profile/page.tsx:25-37 | the form is built from the profile before the mount effect hydrates it, and the effect does not refresh it |
| Profile.StaleFormOverwrites | app/profile/page.tsx:25-37 | saving the form as first rendered writes the profile it was rendered from over the loaded one |
| Profile.FreshLoadSaveWritesPlaceholder | app/profile/page.tsx:25-37 | on a fresh load an unedited save (Edit at line 197 only sets the editing flag) replaces any other stored profile by the placeholder |
| Text.TrimEmptyIff | app/profile/page.tsx:76 | a string trims to empty exactly when every character is whitespace |

## Left out

- Network and parsing: the HTTP request, JSON decoding and the browser-storage calls are left out. The reply and the stored values are typed values, so malformed stored data cannot be represented. The code has no fallback for it: `JSON.parse` would throw, and the model follows the code, not a fallback.
- The `typeof window !== "undefined"` guards are left out: storage is always present.
- `Math.random`, `Date.now`, `uuidv4` and the file reader's data URL are parameters. Floating-point rounding of `Math.random() * n` is modelled with exact reals.
- Case mapping, `\w`, `\s` and `trim` are ASCII only; Unicode case mapping and whitespace are not modelled.
- Dates are integers. The code parses ISO strings and sorts with `new Date(b.date || "")`. A missing date gives NaN and an unspecified order; that case cannot arise in the model, because every meme carries a date.
- Immer's draft mutation and object aliasing are not modelled. After `addComment`, the selection is a copy of the updated entry, not the same object.
- The async thunks' gaps are not modelled: no interleaving between a thunk reading the store and its reducer running. `Search` composes the thunk's filter with its reducer. `addComment` is modelled by its fulfilled reducer alone.
- Object keys: in `userLikesMap`, keys such as "constructor" that collide with the object prototype are not modelled. Integer-like user names, which `Object.entries` lists first, are not modelled either; entries follow the order users first appear.
- Seqs.SortDesc: stable, like JavaScript's `sort`, by construction (insertion from the back). Stability itself is not proved; only order and permutation are.
- MemesSlice.ToggleTwiceRestores: proved only for an id that is not liked yet. Toggling a liked id twice does not restore the state in the code: the id moves to the end of the liked list, and a meme at one like ends at zero, because the like only bumps a non-zero count. `UnlikeThenLikeDrifts` and `UnlikeThenLikeExample` state this.
- Profile.FormFor: the form state is read from the store only at first render, before the mount effect loads the stored profile. On a fresh load the form, and the avatar it feeds (app/profile/page.tsx:137), therefore show the placeholder, and an unedited save writes the placeholder over the stored profile. The model states this in `OpenPage`, `StaleFormOverwrites` and `FreshLoadSaveWritesPlaceholder`. `SaveUneditedIsNoChange` holds only for a form built from the profile it saves into.
- Leaderboard: fetched records carry no user and uploads never join the catalogue, so in the code the top-users list is always empty. `FetchedCatalogueHasNoUsers` states this; the per-user totals are still modelled for any catalogue.
- UserSlice.Merge: a partial with a field present but explicitly `undefined` is not representable.
- Upload.HandleFileChange: the preview produced asynchronously by the file reader, and `imagePreview` possibly still being null at upload time, are not modelled. The preview is a parameter of `PrepareUpload`.
- Explore: after a search shrinks the result, the current page is not reset, so it can exceed `TotalPages`. `CurrentItems` then returns an empty page, and `WindowInRange` assumes a page in range.
- Not modelled: `handleSortChange` (it only dispatches `sortMemes`), the debounce, the caption generator, toasts, routing, and the animation and layout code. The same goes for app/page.tsx, app/meme/[id]/page.tsx, layout, not-found, the theme provider and the store wiring.
