/** The checks the upload and profile pages run on a picked file before using it. */
module ImageFiles {
  import opened Entities
  import opened Text

  /** The picked file: its name, its MIME type and its size in bytes. */
  datatype FileInfo = FileInfo(name: string, mimeType: string, size: nat)

  datatype FileProblem = InvalidFileType | FileTooLarge

  /** `type.match("image.*")`: the pattern matches wherever "image" occurs,
      since `.*` matches the empty string. */
  predicate IsImageType(mimeType: string)
  {
    Contains(mimeType, "image")
  }

  /** The type check first, then `size > maxBytes`; None accepts the file. */
  function CheckImage(file: FileInfo, maxBytes: nat): (r: Option<FileProblem>)
    ensures r == Some(InvalidFileType) <==> !IsImageType(file.mimeType)
    ensures r == Some(FileTooLarge) <==> IsImageType(file.mimeType) && file.size > maxBytes
    ensures r == None <==> IsImageType(file.mimeType) && file.size <= maxBytes
  {
    if !IsImageType(file.mimeType) then Some(InvalidFileType)
    else if file.size > maxBytes then Some(FileTooLarge)
    else None
  }

  /** Any type containing "image" passes the type check, not only `image/...`. */
  lemma ImageAnywhere(prefix: string, suffix: string)
    ensures IsImageType(prefix + "image" + suffix)
  {
    assert (prefix + "image" + suffix)[|prefix|..|prefix| + 5] == "image";
    assert OccursAt(prefix + "image" + suffix, "image", |prefix|);
  }

  /** A type too short to hold "image" never passes. */
  lemma ShortTypeRejected(mimeType: string)
    requires |mimeType| < 5
    ensures !IsImageType(mimeType)
  {
  }
}
