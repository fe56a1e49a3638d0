/** The meme store: the catalogue, its trending top ten, the user's own uploads,
    the liked ids, the fetch status, the selected meme and the current
    search/filter/sort result, with the reducers that change them. */
module MemesSlice {
  import opened Entities
  import opened Text
  import opened Seqs
  import opened Storage

  datatype Status = Idle | Loading | Succeeded | Failed

  datatype SortKey = ByLikes | ByDate

  const TrendingSize: nat := 10

  const DefaultFetchError: string := "Failed to fetch memes"

  /** The category label that stands for "no category filter". */
  const AllCategories: string := "All"

  /** The labels a fetched meme is given at random. */
  const Categories: seq<string> := ["Trending", "New", "Classic", "Random"]

  // ---------------------------------------------------------------------------
  // The fetch payload

  /** A record as the catalogue service sends it. */
  datatype RawMeme = RawMeme(
    id: string, name: string, url: string,
    width: int, height: int, boxCount: int, captions: Option<nat>)

  /** The catalogue service's reply: its success flag and its records. */
  datatype ApiReply = ApiReply(success: bool, memes: seq<RawMeme>)

  /** One fetched record with the engagement data made up for it. Each draw is a
      value of `Math.random()`: the like count is `floor(1000 * d)`, the age
      `floor(10^10 * d)` milliseconds before `now`, the category the label at
      `floor(4 * d)`. */
  function Enriched(raw: RawMeme, likesDraw: real, ageDraw: real, categoryDraw: real, now: int): (m: Meme)
    requires 0.0 <= likesDraw < 1.0 && 0.0 <= ageDraw < 1.0 && 0.0 <= categoryDraw < 1.0
    ensures m.id == raw.id && m.name == raw.name && m.url == raw.url
    ensures m.width == raw.width && m.height == raw.height
    ensures m.boxCount == raw.boxCount && m.captions == raw.captions
    ensures m.likes < 1000 && m.comments == [] && m.user == None
    ensures now - 10000000000 < m.date <= now
    ensures m.category.Some? && m.category.value in Categories
  {
    var likes := (likesDraw * 1000.0).Floor;
    var age := (ageDraw * 10000000000.0).Floor;
    var pick := (categoryDraw * 4.0).Floor;
    Meme(raw.id, raw.name, raw.url, raw.width, raw.height, raw.boxCount, raw.captions,
         likes, [], now - age, Some(Categories[pick]), None)
  }

  /** Draws in the range of `Math.random()`, three per record. */
  ghost predicate ValidDraws(draws: seq<real>, records: nat)
  {
    |draws| == 3 * records && forall i :: 0 <= i < |draws| ==> 0.0 <= draws[i] < 1.0
  }

  /** The `map` over the fetched records; record k uses draws 3k, 3k+1, 3k+2. */
  function EnrichAll(raw: seq<RawMeme>, draws: seq<real>, now: int): (r: seq<Meme>)
    requires ValidDraws(draws, |raw|)
    ensures |r| == |raw|
    ensures forall k :: 0 <= k < |r| ==>
      r[k].id == raw[k].id && r[k].name == raw[k].name && r[k].url == raw[k].url &&
      r[k].width == raw[k].width && r[k].height == raw[k].height &&
      r[k].boxCount == raw[k].boxCount && r[k].captions == raw[k].captions &&
      r[k].likes < 1000 && r[k].comments == [] && r[k].user == None &&
      now - 10000000000 < r[k].date <= now &&
      r[k].category.Some? && r[k].category.value in Categories
  {
    seq(|raw|, k requires 0 <= k < |raw| =>
      Enriched(raw[k], draws[3 * k], draws[3 * k + 1], draws[3 * k + 2], now))
  }

  /** What the `fetchMemes` thunk settles with once the reply is in: the
      enriched records, or the error it throws on a reply that reports failure. */
  function FetchPayload(reply: ApiReply, draws: seq<real>, now: int): (r: Result<seq<Meme>, string>)
    requires reply.success ==> ValidDraws(draws, |reply.memes|)
    ensures r.Err? <==> !reply.success
    ensures r.Err? ==> r.error == DefaultFetchError
    ensures r.Ok? ==> r.value == EnrichAll(reply.memes, draws, now)
    ensures r.Ok? ==> |r.value| == |reply.memes|
    ensures r.Ok? ==> forall k :: 0 <= k < |r.value| ==> r.value[k].id == reply.memes[k].id && r.value[k].likes < 1000
  {
    if !reply.success then Err(DefaultFetchError) else Ok(EnrichAll(reply.memes, draws, now))
  }

  // ---------------------------------------------------------------------------
  // Sort keys and the trending top ten

  /** `m.likes || 0`. */
  function LikesKey(m: Meme): int { m.likes }

  function DateKey(m: Meme): int { m.date }

  function KeyOf(k: SortKey): Meme -> int
  {
    match k
    case ByLikes => LikesKey
    case ByDate => DateKey
  }

  /** The ten memes with the most likes, most liked first. */
  function TopByLikes(s: seq<Meme>): (r: seq<Meme>)
    ensures |r| == Min(TrendingSize, |s|)
    ensures SortedDesc(r, LikesKey)
    ensures multiset(r) <= multiset(s)
    ensures forall x, y :: x in multiset(s) - multiset(r) && y in r ==> y.likes >= x.likes
  {
    TopK(s, LikesKey, TrendingSize)
  }

  // ---------------------------------------------------------------------------
  // Search and category filter

  /** `meme.name.toLowerCase().includes(query.toLowerCase())`. */
  function NameMatches(query: string): Meme -> bool
  {
    (m: Meme) => Contains(Lower(m.name), Lower(query))
  }

  /** The `searchMemes` thunk: the catalogue entries whose name contains the
      query, ignoring case, in catalogue order. */
  function SearchFilter(items: seq<Meme>, query: string): (r: seq<Meme>)
    ensures forall i :: 0 <= i < |r| ==> r[i] in items && Contains(Lower(r[i].name), Lower(query))
    ensures forall i :: 0 <= i < |items| && Contains(Lower(items[i].name), Lower(query)) ==> items[i] in r
  {
    Filter(items, NameMatches(query))
  }

  /** The empty query matches everything, in order. */
  lemma SearchEmptyIsAll(items: seq<Meme>)
    ensures SearchFilter(items, "") == items
  {
    forall i | 0 <= i < |items|
      ensures NameMatches("")(items[i])
    {
      ContainsEmpty(Lower(items[i].name));
    }
    FilterAll(items, NameMatches(""));
  }

  /** Search keeps catalogue order: searching a concatenation concatenates the results. */
  lemma SearchConcat(a: seq<Meme>, b: seq<Meme>, query: string)
    ensures SearchFilter(a + b, query) == SearchFilter(a, query) + SearchFilter(b, query)
  {
    FilterConcat(a, b, NameMatches(query));
  }

  /** A more specific query narrows the result: when `general` is a substring of
      `specific`, the results for `specific` are those for `general` filtered
      again, so they form a subsequence of them. */
  lemma SearchNarrows(items: seq<Meme>, general: string, specific: string)
    requires Contains(specific, general)
    ensures SearchFilter(items, specific) == Filter(SearchFilter(items, general), NameMatches(specific))
    ensures forall m :: m in SearchFilter(items, specific) ==> m in SearchFilter(items, general)
  {
    LowerKeepsContains(specific, general);
    forall m | NameMatches(specific)(m)
      ensures NameMatches(general)(m)
    {
      ContainsTransitive(Lower(m.name), Lower(specific), Lower(general));
    }
    FilterNarrow(items, NameMatches(specific), NameMatches(general));
  }

  function InCategory(category: string): Meme -> bool
  {
    (m: Meme) => m.category == Some(category)
  }

  /** `items.filter((meme) => meme.category === category)`. */
  function CategoryFilter(items: seq<Meme>, category: string): (r: seq<Meme>)
    ensures forall i :: 0 <= i < |r| ==> r[i] in items && r[i].category == Some(category)
    ensures forall i :: 0 <= i < |items| && items[i].category == Some(category) ==> items[i] in r
  {
    Filter(items, InCategory(category))
  }

  // ---------------------------------------------------------------------------
  // Lookup, likes and comments

  /** The index `items.find` stops at: the first entry with that id. */
  function FindIndex(items: seq<Meme>, id: string): (r: Option<nat>)
    ensures r.Some? ==> r.value < |items| && items[r.value].id == id
    ensures r.Some? ==> forall j :: 0 <= j < r.value ==> items[j].id != id
    ensures r.None? ==> forall j :: 0 <= j < |items| ==> items[j].id != id
  {
    if items == [] then None
    else if items[0].id == id then Some(0)
    else match FindIndex(items[1..], id)
      case None => None
      case Some(i) => Some(i + 1)
  }

  /** `items.find((meme) => meme.id === id) || null`. */
  function Find(items: seq<Meme>, id: string): (r: Option<Meme>)
    ensures r.Some? <==> exists j :: 0 <= j < |items| && items[j].id == id
    ensures r.Some? ==> r.value.id == id && r.value in items
    ensures r.Some? ==>
      exists j :: 0 <= j < |items| && items[j] == r.value && forall k :: 0 <= k < j ==> items[k].id != id
  {
    match FindIndex(items, id)
    case None => None
    case Some(i) => Some(items[i])
  }

  /** The lookup depends on the ids alone. */
  lemma {:induction false} FindIndexSameIds(a: seq<Meme>, b: seq<Meme>, id: string)
    requires |a| == |b| && forall i :: 0 <= i < |a| ==> a[i].id == b[i].id
    ensures FindIndex(a, id) == FindIndex(b, id)
  {
    if a != [] && a[0].id != id {
      FindIndexSameIds(a[1..], b[1..], id);
    }
  }

  function IsNot(id: string): string -> bool
  {
    x => x != id
  }

  /** The liked ids after toggling `id`: every occurrence removed when it is
      present, appended at the end otherwise. */
  function ToggledIds(liked: seq<string>, id: string): (r: seq<string>)
    ensures id in r <==> id !in liked
    ensures forall x :: x != id ==> (x in r <==> x in liked)
    ensures id in liked ==> r == Filter(liked, IsNot(id))
    ensures id !in liked ==> r == liked + [id]
    ensures forall x :: x != id ==> multiset(r)[x] == multiset(liked)[x]
  {
    FilterCount(liked, IsNot(id));
    if id in liked then Filter(liked, IsNot(id)) else liked + [id]
  }

  /** The like-count update: it applies only to a count that is not zero. */
  function Bumped(likes: nat, liking: bool): (r: nat)
    ensures likes == 0 ==> r == 0
    ensures likes > 0 && liking ==> r == likes + 1
    ensures likes > 0 && !liking ==> r == likes - 1
  {
    if likes == 0 then 0 else if liking then likes + 1 else likes - 1
  }

  /** The catalogue after a like (`liking`) or an unlike of `id`: the first entry
      with that id has its count bumped, nothing else changes. */
  function ToggledItems(items: seq<Meme>, id: string, liking: bool): (r: seq<Meme>)
    ensures |r| == |items|
    ensures forall j :: 0 <= j < |items| ==> r[j].id == items[j].id
    ensures FindIndex(items, id).None? ==> r == items
    ensures FindIndex(items, id).Some? ==>
      var i := FindIndex(items, id).value;
      r[i] == items[i].(likes := Bumped(items[i].likes, liking)) &&
      forall j :: 0 <= j < |items| && j != i ==> r[j] == items[j]
  {
    match FindIndex(items, id)
    case None => items
    case Some(i) => items[i := items[i].(likes := Bumped(items[i].likes, liking))]
  }

  /** Liking an id that is not liked yet and then unliking it restores both the
      liked ids and every like count. */
  lemma ToggleTwiceRestores(liked: seq<string>, items: seq<Meme>, id: string)
    requires id !in liked
    ensures ToggledIds(ToggledIds(liked, id), id) == liked
    ensures ToggledItems(ToggledItems(items, id, true), id, false) == items
  {
    ToggledIdsTwice(liked, id);
    ToggledItemsTwice(items, id);
  }

  /** The other order does not restore the state. Unliking a liked id and
      liking it again moves the id to the end of the liked list, and a meme
      at one like drops to zero on the unlike and then stays there, since the
      like only bumps a count that is not zero. */
  lemma UnlikeThenLikeDrifts(liked: seq<string>, items: seq<Meme>, id: string)
    requires id in liked
    ensures ToggledIds(ToggledIds(liked, id), id) == Filter(liked, IsNot(id)) + [id]
    ensures FindIndex(items, id).Some? && items[FindIndex(items, id).value].likes == 1 ==>
      ToggledItems(ToggledItems(items, id, false), id, true)[FindIndex(items, id).value].likes == 0
  {
    var once := ToggledItems(items, id, false);
    FindIndexSameIds(items, once, id);
  }

  /** The same drift on a small case: "a" moves behind "b", and one like becomes none. */
  lemma UnlikeThenLikeExample()
    ensures ToggledIds(ToggledIds(["a", "b"], "a"), "a") == ["b", "a"]
    ensures Bumped(Bumped(1, false), true) == 0
  {
    UnlikeThenLikeDrifts(["a", "b"], [], "a");
    assert Filter(["a", "b"], IsNot("a")) == ["b"] by {
      assert ["a", "b"] == ["a"] + ["b"];
      FilterConcat(["a"], ["b"], IsNot("a"));
    }
  }

  lemma ToggledIdsTwice(liked: seq<string>, id: string)
    requires id !in liked
    ensures ToggledIds(ToggledIds(liked, id), id) == liked
  {
    FilterConcat(liked, [id], IsNot(id));
    FilterAll(liked, IsNot(id));
    assert Filter([id], IsNot(id)) == [];
  }

  lemma ToggledItemsTwice(items: seq<Meme>, id: string)
    ensures ToggledItems(ToggledItems(items, id, true), id, false) == items
  {
    var once := ToggledItems(items, id, true);
    FindIndexSameIds(items, once, id);
    if FindIndex(items, id).Some? {
      var i := FindIndex(items, id).value;
      assert Bumped(Bumped(items[i].likes, true), false) == items[i].likes;
      assert ToggledItems(once, id, false)[i] == items[i];
    }
  }

  /** The catalogue after `comment` is appended to the first entry with `memeId`. */
  function CommentedItems(items: seq<Meme>, memeId: string, comment: Comment): (r: seq<Meme>)
    ensures |r| == |items|
    ensures forall j :: 0 <= j < |items| ==> r[j].id == items[j].id
    ensures FindIndex(items, memeId).None? ==> r == items
    ensures FindIndex(items, memeId).Some? ==>
      var i := FindIndex(items, memeId).value;
      r[i] == items[i].(comments := items[i].comments + [comment]) &&
      forall j :: 0 <= j < |items| && j != i ==> r[j] == items[j]
  {
    match FindIndex(items, memeId)
    case None => items
    case Some(i) => items[i := items[i].(comments := items[i].comments + [comment])]
  }

  /** Several comments added one after another, in order. */
  function CommentedItemsAll(items: seq<Meme>, memeId: string, comments: seq<Comment>): seq<Meme>
    decreases |comments|
  {
    if comments == [] then items
    else CommentedItemsAll(CommentedItems(items, memeId, comments[0]), memeId, comments[1..])
  }

  /** The catalogue with `comments` appended to entry `i`. */
  function AppendAt(items: seq<Meme>, i: nat, comments: seq<Comment>): seq<Meme>
    requires i < |items|
  {
    items[i := items[i].(comments := items[i].comments + comments)]
  }

  /** Appending twice to the same entry is appending both lists at once. */
  lemma AppendAtTwice(items: seq<Meme>, i: nat, a: seq<Comment>, b: seq<Comment>)
    requires i < |items|
    ensures AppendAt(AppendAt(items, i, a), i, b) == AppendAt(items, i, a + b)
  {
    assert items[i].comments + a + b == items[i].comments + (a + b);
  }

  /** Comments are append-only: after several additions the entry holds its old
      comments, unchanged and in place, followed by the new ones in order, and
      no other entry changes. */
  lemma {:induction false} CommentsAppendOnly(items: seq<Meme>, memeId: string, comments: seq<Comment>)
    requires FindIndex(items, memeId).Some?
    ensures CommentedItemsAll(items, memeId, comments) == AppendAt(items, FindIndex(items, memeId).value, comments)
    decreases |comments|
  {
    var i := FindIndex(items, memeId).value;
    if comments == [] {
      assert items[i].comments + comments == items[i].comments;
    } else {
      var next := CommentedItems(items, memeId, comments[0]);
      CommentedOnce(items, memeId, comments[0]);
      CommentsAppendOnly(next, memeId, comments[1..]);
      AppendAtTwice(items, i, [comments[0]], comments[1..]);
      assert [comments[0]] + comments[1..] == comments;
    }
  }

  /** One addition appends at the entry found and leaves the lookup where it was. */
  lemma CommentedOnce(items: seq<Meme>, memeId: string, comment: Comment)
    requires FindIndex(items, memeId).Some?
    ensures CommentedItems(items, memeId, comment) == AppendAt(items, FindIndex(items, memeId).value, [comment])
    ensures FindIndex(CommentedItems(items, memeId, comment), memeId) == FindIndex(items, memeId)
  {
    FindIndexSameIds(items, CommentedItems(items, memeId, comment), memeId);
  }

  /** No entry after position `i` with the same id has comments. */
  ghost predicate LastWithId(items: seq<Meme>, i: nat)
    requires i < |items|
  {
    forall j :: i < j < |items| && items[j].id == items[i].id ==> items[j].comments == []
  }

  /** The map the store persists under "memeComments": meme id to its comments,
      for the entries that have comments; a later entry overwrites an earlier
      one with the same id. */
  function PersistedComments(items: seq<Meme>): (r: map<string, seq<Comment>>)
    ensures forall id :: id in r <==> exists i :: 0 <= i < |items| && items[i].id == id && items[i].comments != []
    ensures forall id :: id in r ==> r[id] != []
    ensures forall i :: 0 <= i < |items| && items[i].comments != [] && LastWithId(items, i) ==>
      items[i].id in r && r[items[i].id] == items[i].comments
  {
    if items == [] then map[]
    else
      var init := items[..|items| - 1];
      var last := items[|items| - 1];
      var acc := PersistedComments(init);
      assert forall i :: 0 <= i < |init| ==> init[i] == items[i];
      if last.comments != [] then acc[last.id := last.comments] else acc
  }

  // ---------------------------------------------------------------------------
  // The store

  class MemesStore {
    var items: seq<Meme>
    var trending: seq<Meme>
    var userMemes: seq<Meme>
    var likedMemes: seq<string>
    var status: Status
    var error: Option<string>
    var currentMeme: Option<Meme>
    var searchResults: seq<Meme>
    const storage: LocalStorage

    /** The initial state: everything empty, nothing selected, not fetched. */
    constructor (storage: LocalStorage)
      ensures this.storage == storage
      ensures items == [] && trending == [] && userMemes == [] && likedMemes == []
      ensures status == Idle && error == None && currentMeme == None && searchResults == []
    {
      this.storage := storage;
      items, trending, userMemes, likedMemes := [], [], [], [];
      status, error, currentMeme, searchResults := Idle, None, None, [];
    }

    /** `setCurrentMeme`: selects the first catalogue entry with the id, or none. */
    method SetCurrentMeme(id: string)
      modifies this`currentMeme
      ensures currentMeme == Find(items, id)
    {
      currentMeme := Find(items, id);
    }

    /** `toggleLikeMeme`: flips the id in the liked list, bumps the first
      matching entry's non-zero like count, and persists the liked list. */
    method ToggleLike(id: string)
      modifies this`likedMemes, this`items, storage`likedMemes
      ensures likedMemes == ToggledIds(old(likedMemes), id)
      ensures items == ToggledItems(old(items), id, id !in old(likedMemes))
      ensures storage.likedMemes == Some(likedMemes)
    {
      if id in likedMemes {
        likedMemes := Filter(likedMemes, IsNot(id));
        var found := FindIndex(items, id);
        if found.Some? && items[found.value].likes != 0 {
          var i := found.value;
          items := items[i := items[i].(likes := items[i].likes - 1)];
        }
      } else {
        likedMemes := likedMemes + [id];
        var found := FindIndex(items, id);
        if found.Some? && items[found.value].likes != 0 {
          var i := found.value;
          items := items[i := items[i].(likes := items[i].likes + 1)];
        }
      }
      storage.likedMemes := Some(likedMemes);
    }

    /** `loadLikedMemes`: takes the persisted liked list when the key is present. */
    method LoadLikedMemes()
      modifies this`likedMemes
      ensures storage.likedMemes.Some? ==> likedMemes == storage.likedMemes.value
      ensures storage.likedMemes.None? ==> likedMemes == old(likedMemes)
    {
      if storage.likedMemes.Some? {
        likedMemes := storage.likedMemes.value;
      }
    }

    /** `addUserMeme`: appends to the user's memes and persists them. */
    method AddUserMeme(meme: Meme)
      modifies this`userMemes, storage`userMemes
      ensures userMemes == old(userMemes) + [meme]
      ensures storage.userMemes == Some(userMemes)
    {
      userMemes := userMemes + [meme];
      storage.userMemes := Some(userMemes);
    }

    /** `loadUserMemes`: takes the persisted user memes when the key is present. */
    method LoadUserMemes()
      modifies this`userMemes
      ensures storage.userMemes.Some? ==> userMemes == storage.userMemes.value
      ensures storage.userMemes.None? ==> userMemes == old(userMemes)
    {
      if storage.userMemes.Some? {
        userMemes := storage.userMemes.value;
      }
    }

    /** `filterMemesByCategory`: "All" leaves the result alone; any other label
      replaces it with the catalogue entries of that category. */
    method FilterByCategory(category: string)
      modifies this`searchResults
      ensures category == AllCategories ==> searchResults == old(searchResults)
      ensures category != AllCategories ==> searchResults == CategoryFilter(items, category)
    {
      if category == AllCategories {
        return;
      }
      searchResults := CategoryFilter(items, category);
    }

    /** `sortMemes`: reorders the current result by likes or by date, largest first. */
    method SortMemes(key: SortKey)
      modifies this`searchResults
      ensures searchResults == SortDesc(old(searchResults), KeyOf(key))
      ensures SortedDesc(searchResults, KeyOf(key))
      ensures multiset(searchResults) == multiset(old(searchResults))
    {
      searchResults := SortDesc(searchResults, KeyOf(key));
    }

    /** `fetchMemes.pending`. */
    method FetchPending()
      modifies this`status
      ensures status == Loading
    {
      status := Loading;
    }

    /** `fetchMemes.fulfilled`: the payload becomes the catalogue and the
      result, and its ten most liked memes the trending list. */
    method FetchFulfilled(payload: seq<Meme>)
      modifies this`status, this`items, this`trending, this`searchResults
      ensures status == Succeeded
      ensures items == payload && searchResults == payload
      ensures trending == TopByLikes(payload)
    {
      status := Succeeded;
      items := payload;
      trending := TopByLikes(payload);
      searchResults := payload;
    }

    /** `fetchMemes.rejected`: records the error message, or the default one
      when the message is missing or empty. */
    method FetchRejected(message: Option<string>)
      modifies this`status, this`error
      ensures status == Failed
      ensures message.Some? && message.value != "" ==> error == message
      ensures message.None? || message.value == "" ==> error == Some(DefaultFetchError)
    {
      status := Failed;
      error := Some(if message.Some? && message.value != "" then message.value else DefaultFetchError);
    }

    /** The whole fetch: pending, then fulfilled or rejected by the reply. */
    method FetchMemes(reply: ApiReply, draws: seq<real>, now: int)
      requires reply.success ==> ValidDraws(draws, |reply.memes|)
      modifies this`status, this`items, this`trending, this`searchResults, this`error
      ensures reply.success ==> status == Succeeded
      ensures reply.success ==> error == old(error)
      ensures reply.success ==> items == searchResults == EnrichAll(reply.memes, draws, now)
      ensures reply.success ==> trending == TopByLikes(items)
      ensures !reply.success ==> status == Failed && error == Some(DefaultFetchError)
      ensures !reply.success ==> items == old(items) && trending == old(trending)
      ensures !reply.success ==> searchResults == old(searchResults)
    {
      ghost var items0, trending0, results0, error0 := items, trending, searchResults, error;
      FetchPending();
      var payload := FetchPayload(reply, draws, now);
      if payload.Ok? {
        assert payload.value == EnrichAll(reply.memes, draws, now);
        FetchFulfilled(payload.value);
        assert error == error0;
      } else {
        assert payload.error == DefaultFetchError;
        FetchRejected(Some(payload.error));
        assert items == items0 && trending == trending0 && searchResults == results0;
      }
    }

    /** `searchMemes.fulfilled`. */
    method SearchFulfilled(results: seq<Meme>)
      modifies this`searchResults
      ensures searchResults == results
    {
      searchResults := results;
    }

    /** `searchMemes(query)`: the thunk's filter over the catalogue, then its
      fulfilled reducer. */
    method Search(query: string)
      modifies this`searchResults
      ensures searchResults == SearchFilter(items, query)
      ensures query == "" ==> searchResults == items
    {
      SearchEmptyIsAll(items);
      SearchFulfilled(SearchFilter(items, query));
    }

    /** `addComment.fulfilled`: appends the comment to the first entry with the
      id, refreshes the selection when it is that meme, and persists the
      comment map; an unknown id changes and writes nothing. */
    method AddComment(memeId: string, comment: Comment)
      modifies this`items, this`currentMeme, storage`memeComments
      ensures items == CommentedItems(old(items), memeId, comment)
      ensures FindIndex(old(items), memeId).None? ==>
        currentMeme == old(currentMeme) && storage.memeComments == old(storage.memeComments)
      ensures FindIndex(old(items), memeId).Some? ==>
        storage.memeComments == Some(PersistedComments(items)) &&
        currentMeme == (if old(currentMeme).Some? && old(currentMeme).value.id == memeId
                        then Some(items[FindIndex(old(items), memeId).value])
                        else old(currentMeme))
    {
      var found := FindIndex(items, memeId);
      if found.Some? {
        var i := found.value;
        items := items[i := items[i].(comments := items[i].comments + [comment])];
        if currentMeme.Some? && currentMeme.value.id == memeId {
          currentMeme := Some(items[i]);
        }
        storage.memeComments := Some(PersistedComments(items));
      }
    }
  }
}
