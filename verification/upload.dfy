/** The upload page: the checks on a picked file, the title made from its
    name, and the meme record an upload adds to the user's memes. */
module Upload {
  import opened Entities
  import opened Text
  import opened ImageFiles
  import opened MemesSlice

  const MaxUploadBytes: nat := 5 * 1024 * 1024

  // ---------------------------------------------------------------------------
  // Title from the file name

  /** `name.split(".")[0]`: everything before the first dot. */
  function FileNamePrefix(name: string): (r: string)
    ensures |r| <= |name| && r == name[..|r|]
    ensures '.' !in r
    ensures |r| < |name| ==> name[|r|] == '.'
  {
    if name == [] || name[0] == '.' then [] else [name[0]] + FileNamePrefix(name[1..])
  }

  function SeparatorToSpace(c: char): char
  {
    if c == '-' || c == '_' then ' ' else c
  }

  /** `.replace(/[-_]/g, " ")`. */
  function ReplaceSeparators(s: string): (r: string)
    ensures |r| == |s|
    ensures forall i :: 0 <= i < |s| ==> r[i] == SeparatorToSpace(s[i])
  {
    seq(|s|, i requires 0 <= i < |s| => SeparatorToSpace(s[i]))
  }

  /** `.replace(/\w\S*\/g, (t) => t.charAt(0).toUpperCase() + t.substr(1).toLowerCase())`,
      read left to right. `inWord` says whether a match is under way: a match
      starts at a word character, which is upper-cased, and runs up to the next
      whitespace, lower-casing what it covers; characters outside a match are
      kept. */
  function TitleCase(s: string, inWord: bool): string
  {
    if s == [] then [] else [CaseChar(inWord, s[0])] + TitleCase(s[1..], NextInWord(inWord, s[0]))
  }

  /** What one character becomes: inside a match it is lower-cased, except the
      whitespace that ends the match; outside, a word character starting a
      match is upper-cased and anything else is kept. */
  function CaseChar(inWord: bool, c: char): char
  {
    if inWord then (if IsSpace(c) then c else LowerChar(c))
    else if IsWordChar(c) then UpperChar(c) else c
  }

  /** Whether a match is under way after reading `s`. */
  function NextInWord(inWord: bool, c: char): bool
  {
    if inWord then !IsSpace(c) else IsWordChar(c)
  }

  function InWordAfter(s: string, inWord: bool): bool
  {
    if s == [] then inWord else InWordAfter(s[1..], NextInWord(inWord, s[0]))
  }

  /** The title made from a file name. */
  function FormatTitle(name: string): string
  {
    TitleCase(ReplaceSeparators(FileNamePrefix(name)), false)
  }

  lemma {:induction false} TitleCaseLength(s: string, inWord: bool)
    ensures |TitleCase(s, inWord)| == |s|
  {
    if s != [] {
      TitleCaseLength(s[1..], NextInWord(inWord, s[0]));
    }
  }

  /** Title-casing changes the case of letters and nothing else. */
  lemma {:induction false} TitleCaseOnlyCase(s: string, inWord: bool)
    ensures |TitleCase(s, inWord)| == |s|
    ensures Lower(TitleCase(s, inWord)) == Lower(s)
  {
    TitleCaseLength(s, inWord);
    if s != [] {
      var t := TitleCase(s, inWord);
      TitleCaseOnlyCase(s[1..], NextInWord(inWord, s[0]));
      assert t[1..] == TitleCase(s[1..], NextInWord(inWord, s[0]));
      forall i | 0 <= i < |s|
        ensures LowerChar(t[i]) == LowerChar(s[i])
      {
        if i > 0 {
          assert t[i] == t[1..][i - 1] && s[i] == s[1..][i - 1];
          assert Lower(t[1..])[i - 1] == Lower(s[1..])[i - 1];
        }
      }
    }
  }

  /** Cutting the text in two: the second part is title-cased from the state the
      first part leaves. */
  lemma {:induction false} TitleCaseSplit(a: string, b: string, inWord: bool)
    ensures TitleCase(a + b, inWord) == TitleCase(a, inWord) + TitleCase(b, InWordAfter(a, inWord))
  {
    if a != [] {
      assert (a + b)[1..] == a[1..] + b;
      TitleCaseSplit(a[1..], b, NextInWord(inWord, a[0]));
    } else {
      assert a + b == b;
    }
  }

  lemma {:induction false} InWordAfterSnoc(a: string, c: char, inWord: bool)
    ensures InWordAfter(a + [c], inWord) == NextInWord(InWordAfter(a, inWord), c)
  {
    if a != [] {
      assert (a + [c])[1..] == a[1..] + [c];
      InWordAfterSnoc(a[1..], c, NextInWord(inWord, a[0]));
    }
  }

  /** The character at `i` is title-cased in the state left by the ones before it. */
  lemma CharAt(s: string, i: nat)
    requires i < |s|
    ensures |TitleCase(s, false)| == |s|
    ensures TitleCase(s, false)[i] == TitleCase([s[i]], InWordAfter(s[..i], false))[0]
  {
    TitleCaseLength(s, false);
    assert s == s[..i] + s[i..];
    TitleCaseSplit(s[..i], s[i..], false);
    TitleCaseLength(s[..i], false);
    assert s[i..] == [s[i]] + s[i + 1..];
  }

  /** A word character at the start or after whitespace is upper-cased. */
  lemma WordStartUpper(s: string, i: nat)
    requires i < |s| && IsWordChar(s[i])
    requires i == 0 || IsSpace(s[i - 1])
    ensures |TitleCase(s, false)| == |s| && TitleCase(s, false)[i] == UpperChar(s[i])
  {
    CharAt(s, i);
    if i > 0 {
      assert s[..i] == s[..i - 1] + [s[i - 1]];
      InWordAfterSnoc(s[..i - 1], s[i - 1], false);
    }
  }

  /** A non-space character right after a word character is lower-cased. */
  lemma AfterWordCharLower(s: string, i: nat)
    requires 0 < i < |s| && IsWordChar(s[i - 1]) && !IsSpace(s[i])
    ensures |TitleCase(s, false)| == |s| && TitleCase(s, false)[i] == LowerChar(s[i])
  {
    CharAt(s, i);
    assert s[..i] == s[..i - 1] + [s[i - 1]];
    InWordAfterSnoc(s[..i - 1], s[i - 1], false);
  }

  /** Whitespace is kept wherever it stands. */
  lemma SpaceKept(s: string, i: nat)
    requires i < |s| && IsSpace(s[i])
    ensures |TitleCase(s, false)| == |s| && TitleCase(s, false)[i] == s[i]
  {
    CharAt(s, i);
  }

  /** A match of `/\w\S*\/` is under way at position `i` when a word character
      before `i` started one and no whitespace has come since. */
  ghost predicate InMatch(s: string, i: nat)
    requires i <= |s|
  {
    exists k :: 0 <= k < i && IsWordChar(s[k]) && forall m :: k <= m < i ==> !IsSpace(s[m])
  }

  /** The scan state after the first `i` characters is exactly "a match is under way". */
  lemma {:induction false} InWordAfterMatch(s: string, i: nat)
    requires i <= |s|
    ensures InWordAfter(s[..i], false) <==> InMatch(s, i)
  {
    if i > 0 {
      InWordAfterMatch(s, i - 1);
      assert s[..i] == s[..i - 1] + [s[i - 1]];
      InWordAfterSnoc(s[..i - 1], s[i - 1], false);
      if InMatch(s, i) {
        var k :| 0 <= k < i && IsWordChar(s[k]) && forall m :: k <= m < i ==> !IsSpace(s[m]);
        if k < i - 1 {
          assert InMatch(s, i - 1);
        }
      }
      if InWordAfter(s[..i], false) {
        if InWordAfter(s[..i - 1], false) {
          var k :| 0 <= k < i - 1 && IsWordChar(s[k]) && forall m :: k <= m < i - 1 ==> !IsSpace(s[m]);
          assert forall m :: k <= m < i ==> !IsSpace(s[m]);
        } else {
          assert IsWordChar(s[i - 1]);
        }
      }
    }
  }

  /** Every character as the replace leaves it: inside a match it is
      lower-cased unless it is the whitespace that ends the match; outside one
      a word character starts a match and is upper-cased, and anything else,
      punctuation included, is kept. */
  lemma TitleCaseAt(s: string, i: nat)
    requires i < |s|
    ensures |TitleCase(s, false)| == |s|
    ensures InMatch(s, i) && !IsSpace(s[i]) ==> TitleCase(s, false)[i] == LowerChar(s[i])
    ensures !InMatch(s, i) && IsWordChar(s[i]) ==> TitleCase(s, false)[i] == UpperChar(s[i])
    ensures IsSpace(s[i]) || (!InMatch(s, i) && !IsWordChar(s[i])) ==> TitleCase(s, false)[i] == s[i]
  {
    CharAt(s, i);
    InWordAfterMatch(s, i);
  }

  /** Punctuation before a letter: it starts no match of its own, so "(b"
      becomes "(B", while in "a(b" the match begun at "a" runs on and the "b"
      is lower-cased. */
  lemma PunctuationExamples()
    ensures TitleCase("(b", false) == "(B"
    ensures TitleCase("a(b", false) == "A(b"
  {
    assert TitleCase("b", false) == "B";
    assert TitleCase("b", true) == "b";
    assert TitleCase("(b", true) == "(b";
  }

  /** Title-casing twice is title-casing once. */
  lemma {:induction false} TitleCaseIdempotent(s: string, inWord: bool)
    ensures TitleCase(TitleCase(s, inWord), inWord) == TitleCase(s, inWord)
  {
    if s != [] {
      var t := TitleCase(s, inWord);
      var next := NextInWord(inWord, s[0]);
      TitleCaseIdempotent(s[1..], next);
      assert t[1..] == TitleCase(s[1..], next);
      assert t[0] == TitleCase(s, inWord)[0];
      assert NextInWord(inWord, t[0]) == next;
    }
  }

  /** The title has the prefix's length, no dot, dash or underscore, differs
      from the prefix only in letter case, and formatting it again changes
      nothing. */
  lemma FormatTitleShape(name: string)
    ensures |FormatTitle(name)| == |FileNamePrefix(name)|
    ensures Lower(FormatTitle(name)) == Lower(ReplaceSeparators(FileNamePrefix(name)))
    ensures forall i :: 0 <= i < |FormatTitle(name)| ==>
      FormatTitle(name)[i] != '.' && FormatTitle(name)[i] != '-' && FormatTitle(name)[i] != '_'
    ensures FormatTitle(FormatTitle(name)) == FormatTitle(name)
  {
    var prefix := FileNamePrefix(name);
    var spaced := ReplaceSeparators(prefix);
    var title := FormatTitle(name);
    TitleCaseOnlyCase(spaced, false);
    forall i | 0 <= i < |title|
      ensures title[i] != '.' && title[i] != '-' && title[i] != '_'
    {
      assert Lower(title)[i] == Lower(spaced)[i];
      assert spaced[i] == SeparatorToSpace(prefix[i]) && prefix[i] in prefix;
    }
    assert FileNamePrefix(title) == title by {
      NoDotPrefix(title);
    }
    assert ReplaceSeparators(title) == title;
    TitleCaseIdempotent(spaced, false);
  }

  lemma {:induction false} NoDotPrefix(s: string)
    requires forall i :: 0 <= i < |s| ==> s[i] != '.'
    ensures FileNamePrefix(s) == s
  {
    if s != [] {
      NoDotPrefix(s[1..]);
    }
  }

  // ---------------------------------------------------------------------------
  // Picking a file

  /** What picking a file leads to. */
  datatype FileChange =
    | NoFile
    | Rejected(problem: FileProblem)
    | Accepted(file: FileInfo, title: string)

  /** `handleFileChange`: checks the file, keeps it, and fills in the title
      from its name only when the title is still empty. */
  function HandleFileChange(file: Option<FileInfo>, title: string): (r: FileChange)
    ensures file.None? <==> r == NoFile
    ensures file.Some? && CheckImage(file.value, MaxUploadBytes).Some? ==>
      r == Rejected(CheckImage(file.value, MaxUploadBytes).value)
    ensures r.Accepted? ==> r.file == file.value && CheckImage(r.file, MaxUploadBytes).None?
    ensures file.Some? && CheckImage(file.value, MaxUploadBytes).None? ==> r.Accepted?
    ensures r.Accepted? && (title != "" || file.value.name == "") ==> r.title == title
    ensures r.Accepted? && title == "" && file.value.name != "" ==> r.title == FormatTitle(file.value.name)
  {
    match file
    case None => NoFile
    case Some(f) =>
      match CheckImage(f, MaxUploadBytes)
      case Some(problem) => Rejected(problem)
      case None =>
        Accepted(f, if title == "" && f.name != "" then FormatTitle(f.name) else title)
  }

  /** A 5 MiB file of an image type is accepted; one byte more is not. */
  lemma UploadSizeLimit(name: string, mimeType: string)
    requires IsImageType(mimeType)
    ensures HandleFileChange(Some(FileInfo(name, mimeType, 5242880)), "x").Accepted?
    ensures HandleFileChange(Some(FileInfo(name, mimeType, 5242881)), "x") == Rejected(FileTooLarge)
  {
  }

  // ---------------------------------------------------------------------------
  // The upload

  datatype UploadError = MissingInformation

  /** The record `handleUpload` builds: `id` comes from the id generator,
      `url` from the preview, `now` from the clock, `userName` from the profile. */
  function NewMeme(id: string, title: string, preview: string, caption: string, now: int, userName: string): (m: Meme)
    ensures m.id == id && m.name == title && m.url == preview
    ensures m.width == 500 && m.height == 500 && m.boxCount == 2
    ensures m.captions == Some(if caption != "" then 1 else 0)
    ensures m.likes == 0 && m.comments == [] && m.date == now
    ensures m.category == Some("New") && m.user == Some(userName)
  {
    Meme(id, title, preview, 500, 500, 2, Some(if caption != "" then 1 else 0),
         0, [], now, Some("New"), Some(userName))
  }

  /** `handleUpload` before the dispatch: refused without a file or a title. */
  function PrepareUpload(file: Option<FileInfo>, title: string, caption: string, preview: string,
                         id: string, now: int, userName: string): (r: Result<Meme, UploadError>)
    ensures r.Err? <==> file.None? || title == ""
    ensures r.Ok? ==> r.value == NewMeme(id, title, preview, caption, now, userName)
  {
    if file.None? || title == "" then Err(MissingInformation)
    else Ok(NewMeme(id, title, preview, caption, now, userName))
  }

  /** `handleUpload`: on success the new meme is appended to the user's memes
      (and persisted); a refused upload dispatches nothing. */
  method HandleUpload(store: MemesStore, user: User, file: Option<FileInfo>, title: string,
                      caption: string, preview: string, id: string, now: int)
    returns (r: Result<Meme, UploadError>)
    modifies store`userMemes, store.storage`userMemes
    ensures r == PrepareUpload(file, title, caption, preview, id, now, user.name)
    ensures r.Ok? ==> store.userMemes == old(store.userMemes) + [r.value]
    ensures r.Ok? ==> store.storage.userMemes == Some(store.userMemes)
    ensures r.Err? ==> store.userMemes == old(store.userMemes)
    ensures r.Err? ==> store.storage.userMemes == old(store.storage.userMemes)
  {
    r := PrepareUpload(file, title, caption, preview, id, now, user.name);
    if r.Ok? {
      store.AddUserMeme(r.value);
    }
  }
}
