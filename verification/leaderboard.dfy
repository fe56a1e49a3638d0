/** The leaderboard page: the ten most liked memes, the likes each user's memes
    have gathered, and the ten users with the most. */
module Leaderboard {
  import opened Entities
  import opened Seqs
  import opened MemesSlice

  const BoardSize: nat := 10

  /** `[...items].sort(by likes).slice(0, 10)`: the sort works on a copy, so
      the catalogue keeps its order. */
  function TopMemes(items: seq<Meme>): (r: seq<Meme>)
    ensures |r| == Min(BoardSize, |items|)
    ensures SortedDesc(r, LikesKey)
    ensures multiset(r) <= multiset(items)
    ensures forall i :: 0 <= i < |r| ==> r[i] in items
    ensures forall x, y :: x in multiset(items) - multiset(r) && y in r ==> y.likes >= x.likes
  {
    var r := TopByLikes(items);
    SubMultisetMembers(r, items);
    r
  }

  /** One entry of `userLikesMap`. */
  datatype UserTotal = UserTotal(user: string, likes: nat)

  /** `if (meme.user)`: the meme names a non-empty user. */
  predicate HasOwner(m: Meme)
  {
    m.user.Some? && m.user.value != ""
  }

  /** Where `u` sits in the accumulator, if it is there. */
  function IndexOfUser(acc: seq<UserTotal>, u: string): (r: Option<nat>)
    ensures r.Some? ==> r.value < |acc| && acc[r.value].user == u
    ensures r.None? ==> forall j :: 0 <= j < |acc| ==> acc[j].user != u
  {
    if acc == [] then None
    else if acc[0].user == u then Some(0)
    else match IndexOfUser(acc[1..], u)
      case None => None
      case Some(i) => Some(i + 1)
  }

  /** One step of the `reduce`: adds the meme's likes to its owner's total,
      starting the owner at 0 when it is new. */
  function AddMeme(acc: seq<UserTotal>, m: Meme): seq<UserTotal>
  {
    if !HasOwner(m) then acc
    else match IndexOfUser(acc, m.user.value)
      case Some(i) => acc[i := acc[i].(likes := acc[i].likes + m.likes)]
      case None => acc + [UserTotal(m.user.value, m.likes)]
  }

  /** `userLikesMap`, with its entries in the order the users first appear. */
  function UserLikesMap(items: seq<Meme>): seq<UserTotal>
  {
    if items == [] then [] else AddMeme(UserLikesMap(items[..|items| - 1]), items[|items| - 1])
  }

  /** The likes of the memes owned by `u` (reference definition). */
  function LikesOf(items: seq<Meme>, u: string): nat
  {
    if items == [] then 0
    else LikesOf(items[..|items| - 1], u) + (if items[|items| - 1].user == Some(u) then items[|items| - 1].likes else 0)
  }

  /** The likes of all memes that have an owner (reference definition). */
  function OwnedLikes(items: seq<Meme>): nat
  {
    if items == [] then 0
    else OwnedLikes(items[..|items| - 1]) + (if HasOwner(items[|items| - 1]) then items[|items| - 1].likes else 0)
  }

  /** The sum of the totals in a map. */
  function Total(acc: seq<UserTotal>): nat
  {
    if acc == [] then 0 else Total(acc[..|acc| - 1]) + acc[|acc| - 1].likes
  }

  ghost predicate DistinctUsers(acc: seq<UserTotal>)
  {
    forall i, j :: 0 <= i < j < |acc| ==> acc[i].user != acc[j].user
  }

  /** The users that have an entry. */
  ghost function UsersOf(acc: seq<UserTotal>): set<string>
  {
    set i | 0 <= i < |acc| :: acc[i].user
  }

  /** The users that own a meme. */
  ghost function Owners(items: seq<Meme>): set<string>
  {
    set k | 0 <= k < |items| && HasOwner(items[k]) :: items[k].user.value
  }

  ghost function OwnerOf(m: Meme): set<string>
  {
    if HasOwner(m) then {m.user.value} else {}
  }

  lemma OwnersSnoc(items: seq<Meme>)
    requires items != []
    ensures Owners(items) == Owners(items[..|items| - 1]) + OwnerOf(items[|items| - 1])
  {
    var init := items[..|items| - 1];
    assert forall k :: 0 <= k < |init| ==> init[k] == items[k];
    forall u | u in Owners(items)
      ensures u in Owners(init) + OwnerOf(items[|items| - 1])
    {
      var k :| 0 <= k < |items| && HasOwner(items[k]) && items[k].user.value == u;
      if k < |init| {
        assert HasOwner(init[k]) && init[k].user.value == u;
      }
    }
  }

  /** One step adds the meme's owner to the users and keeps them distinct. */
  lemma AddMemeUsers(acc: seq<UserTotal>, m: Meme)
    requires DistinctUsers(acc)
    ensures DistinctUsers(AddMeme(acc, m))
    ensures UsersOf(AddMeme(acc, m)) == UsersOf(acc) + OwnerOf(m)
  {
    var r := AddMeme(acc, m);
    if HasOwner(m) {
      match IndexOfUser(acc, m.user.value)
      case Some(i) =>
        assert forall j :: 0 <= j < |acc| ==> r[j].user == acc[j].user;
        assert UsersOf(r) == UsersOf(acc);
      case None =>
        assert forall j :: 0 <= j < |acc| ==> r[j] == acc[j];
        assert r[|acc|].user == m.user.value;
        forall u | u in UsersOf(r)
          ensures u in UsersOf(acc) + {m.user.value}
        {
          var j :| 0 <= j < |r| && r[j].user == u;
          if j < |acc| {
            assert acc[j].user == u;
          }
        }
        assert UsersOf(acc) + {m.user.value} <= UsersOf(r);
    }
  }

  /** Raising one total raises the sum by as much. */
  lemma {:induction false} TotalUpdate(acc: seq<UserTotal>, i: nat, extra: nat)
    requires i < |acc|
    ensures Total(acc[i := acc[i].(likes := acc[i].likes + extra)]) == Total(acc) + extra
  {
    var acc' := acc[i := acc[i].(likes := acc[i].likes + extra)];
    if i < |acc| - 1 {
      TotalUpdate(acc[..|acc| - 1], i, extra);
      assert acc'[..|acc'| - 1] == acc[..|acc| - 1][i := acc[i].(likes := acc[i].likes + extra)];
    } else {
      assert acc'[..|acc'| - 1] == acc[..|acc| - 1];
    }
  }

  /** One step adds the meme's likes to the sum when the meme has an owner. */
  lemma AddMemeTotal(acc: seq<UserTotal>, m: Meme)
    ensures Total(AddMeme(acc, m)) == Total(acc) + (if HasOwner(m) then m.likes else 0)
  {
    if HasOwner(m) {
      match IndexOfUser(acc, m.user.value)
      case Some(i) => TotalUpdate(acc, i, m.likes);
      case None =>
        var r := AddMeme(acc, m);
        assert r[..|r| - 1] == acc;
    }
  }

  /** A user that owns none of the memes has no likes. */
  lemma {:induction false} LikesOfAbsent(items: seq<Meme>, u: string)
    requires u !in Owners(items) && u != ""
    ensures LikesOf(items, u) == 0
  {
    if items != [] {
      OwnersSnoc(items);
      LikesOfAbsent(items[..|items| - 1], u);
    }
  }

  /** One step keeps every total equal to its user's likes. */
  lemma AddMemeLikes(acc: seq<UserTotal>, items: seq<Meme>)
    requires items != [] && DistinctUsers(acc)
    requires UsersOf(acc) == Owners(items[..|items| - 1])
    requires forall j :: 0 <= j < |acc| ==> acc[j].likes == LikesOf(items[..|items| - 1], acc[j].user)
    ensures var r := AddMeme(acc, items[|items| - 1]);
      forall j :: 0 <= j < |r| ==> r[j].likes == LikesOf(items, r[j].user)
  {
    var init, m := items[..|items| - 1], items[|items| - 1];
    var r := AddMeme(acc, m);
    forall j | 0 <= j < |acc|
      ensures acc[j].user != ""
    {
      assert acc[j].user in UsersOf(acc);
    }
    if HasOwner(m) {
      match IndexOfUser(acc, m.user.value)
      case Some(i) =>
        forall j | 0 <= j < |r|
          ensures r[j].likes == LikesOf(items, r[j].user)
        {
          assert LikesOf(items, r[j].user) == LikesOf(init, r[j].user) +
            (if m.user == Some(r[j].user) then m.likes else 0);
          if j != i {
            assert acc[j].user != acc[i].user;
          }
        }
      case None =>
        assert m.user.value !in UsersOf(acc);
        LikesOfAbsent(init, m.user.value);
    }
  }

  /** Each user appears once, exactly the owners appear, each total is the
      likes of that user's memes, and the totals add up to the likes of all
      owned memes. */
  lemma {:induction false} UserLikesMapSpec(items: seq<Meme>)
    ensures DistinctUsers(UserLikesMap(items))
    ensures UsersOf(UserLikesMap(items)) == Owners(items)
    ensures forall i :: 0 <= i < |UserLikesMap(items)| ==>
      UserLikesMap(items)[i].likes == LikesOf(items, UserLikesMap(items)[i].user)
    ensures Total(UserLikesMap(items)) == OwnedLikes(items)
  {
    if items != [] {
      var init, m := items[..|items| - 1], items[|items| - 1];
      UserLikesMapSpec(init);
      var acc := UserLikesMap(init);
      AddMemeUsers(acc, m);
      OwnersSnoc(items);
      AddMemeTotal(acc, m);
      AddMemeLikes(acc, items);
    }
  }

  /** A map without repeated users has one entry per user. */
  lemma {:induction false} DistinctCount(acc: seq<UserTotal>)
    requires DistinctUsers(acc)
    ensures |UsersOf(acc)| == |acc|
  {
    if acc != [] {
      var init := acc[..|acc| - 1];
      DistinctCount(init);
      assert UsersOf(acc) == UsersOf(init) + {acc[|acc| - 1].user};
      assert acc[|acc| - 1].user !in UsersOf(init);
    }
  }

  function TotalKey(e: UserTotal): int { e.likes }

  /** `topUsers`: the ten largest totals, largest first, each user once. */
  function TopUsers(items: seq<Meme>): (r: seq<UserTotal>)
    ensures |r| == Min(BoardSize, |Owners(items)|)
    ensures SortedDesc(r, TotalKey)
    ensures multiset(r) <= multiset(UserLikesMap(items))
    ensures forall x, y :: x in multiset(UserLikesMap(items)) - multiset(r) && y in r ==> y.likes >= x.likes
    ensures DistinctUsers(r)
    ensures forall i :: 0 <= i < |r| ==> r[i] in UserLikesMap(items)
    ensures forall i :: 0 <= i < |r| ==> r[i].likes == LikesOf(items, r[i].user)
  {
    var entries := UserLikesMap(items);
    UserLikesMapSpec(items);
    DistinctCount(entries);
    var r := TopK(entries, TotalKey, BoardSize);
    TopUsersEntries(items, r);
    DistinctSub(r, entries);
    r
  }

  /** In a map without repeated users no entry occurs twice. */
  lemma {:induction false} DistinctOnce(acc: seq<UserTotal>, e: UserTotal)
    requires DistinctUsers(acc)
    ensures multiset(acc)[e] <= 1
  {
    if acc != [] {
      var init := acc[..|acc| - 1];
      assert acc == init + [acc[|acc| - 1]];
      DistinctOnce(init, e);
      if acc[|acc| - 1] == e {
        assert forall j :: 0 <= j < |init| ==> init[j].user != e.user;
      }
    }
  }

  /** Entries drawn from a map without repeated users repeat no user either. */
  lemma DistinctSub(r: seq<UserTotal>, acc: seq<UserTotal>)
    requires multiset(r) <= multiset(acc) && DistinctUsers(acc)
    ensures DistinctUsers(r)
  {
    SubMultisetMembers(r, acc);
    forall i, j | 0 <= i < j < |r|
      ensures r[i].user != r[j].user
    {
      if r[i].user == r[j].user {
        var p :| 0 <= p < |acc| && acc[p] == r[i];
        var q :| 0 <= q < |acc| && acc[q] == r[j];
        assert p == q;
        SplitMultiset(r, j);
        assert r[i] in multiset(r[..j]);
        assert r[j] in multiset(r[j..]);
        assert multiset(r)[r[i]] >= 2;
        DistinctOnce(acc, r[i]);
        assert false;
      }
    }
  }

  /** Fetched records name no user, so on the fetched catalogue the per-user
      totals, and with them the top users, are empty. */
  lemma FetchedCatalogueHasNoUsers(raw: seq<RawMeme>, draws: seq<real>, now: int)
    requires ValidDraws(draws, |raw|)
    ensures UserLikesMap(EnrichAll(raw, draws, now)) == []
    ensures TopUsers(EnrichAll(raw, draws, now)) == []
  {
    var items := EnrichAll(raw, draws, now);
    var acc := UserLikesMap(items);
    UserLikesMapSpec(items);
    assert forall k :: 0 <= k < |items| ==> !HasOwner(items[k]);
    assert Owners(items) == {};
    DistinctCount(acc);
  }

  /** Entries drawn from the map carry their users' likes. */
  lemma TopUsersEntries(items: seq<Meme>, r: seq<UserTotal>)
    requires multiset(r) <= multiset(UserLikesMap(items))
    requires forall i :: 0 <= i < |UserLikesMap(items)| ==>
      UserLikesMap(items)[i].likes == LikesOf(items, UserLikesMap(items)[i].user)
    ensures forall i :: 0 <= i < |r| ==> r[i] in UserLikesMap(items)
    ensures forall i :: 0 <= i < |r| ==> r[i].likes == LikesOf(items, r[i].user)
  {
    var entries := UserLikesMap(items);
    SubMultisetMembers(r, entries);
    forall i | 0 <= i < |r|
      ensures r[i].likes == LikesOf(items, r[i].user)
    {
      var j :| 0 <= j < |entries| && entries[j] == r[i];
    }
  }
}
