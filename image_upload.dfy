/** `useImageUpload`: the client checks an image's size and type, then
    uploads it to the `images` bucket under a generated name and reports its
    public URL. The hook's `uploading` and `progress` state are the fields
    of one object; the clock, the random name part and the storage service's
    answers are parameters. */
module ImageUpload {
  import opened Wrappers
  import opened JsText
  import opened NumberText

  const MaxFileSize: int := 5 * 1024 * 1024
  const AllowedTypes: seq<string> := ["image/jpeg", "image/png", "image/gif", "image/webp"]

  /** The `File` fields the hook reads. */
  datatype File = File(name: string, size: int, mimeType: string)

  /** Why a file is refused before any upload. */
  datatype Refusal = TooLarge | WrongType

  /** The checks, size first. */
  function Validate(file: File): (r: Option<Refusal>)
    ensures r == Some(TooLarge) <==> file.size > MaxFileSize
    ensures r == Some(WrongType) <==> file.size <= MaxFileSize && file.mimeType !in AllowedTypes
    ensures r.None? <==> file.size <= MaxFileSize && file.mimeType in AllowedTypes
  {
    if file.size > MaxFileSize then Some(TooLarge)
    else if file.mimeType !in AllowedTypes then Some(WrongType)
    else None
  }

  /** `name.split('.').pop()`: the text after the last dot, or the whole name
      when it has none. */
  function Extension(name: string): (ext: string)
    ensures '.' !in ext
  {
    LastPiece(name, '.')
  }

  /** The last piece of a split, `split(sep).pop()`. */
  function LastPiece(s: string, sep: char): (last: string)
    ensures sep !in last
  {
    var parts := Split(s, sep);
    assert parts[|parts| - 1] in parts;
    parts[|parts| - 1]
  }

  /** Past a first separator, the last piece is that of the rest. */
  lemma LastPieceOfRest(s: string, sep: char, i: nat)
    requires i == IndexOf(s, sep) < |s|
    ensures LastPiece(s, sep) == LastPiece(s[i + 1..], sep)
  {
    var rparts := Split(s[i + 1..], sep);
    assert Split(s, sep) == [s[..i]] + rparts;
  }

  /** The last piece of a split is a suffix of the text; unless it is the
      whole text, the separator stands right before it. */
  lemma {:induction false} LastPieceIsSuffix(s: string, sep: char)
    ensures var last := LastPiece(s, sep);
            |last| <= |s| && s[|s| - |last|..] == last
            && (|last| < |s| ==> s[|s| - |last| - 1] == sep)
    decreases |s|
  {
    var i := IndexOf(s, sep);
    if i < |s| {
      var rest := s[i + 1..];
      LastPieceIsSuffix(rest, sep);
      LastPieceOfRest(s, sep, i);
      var last := LastPiece(rest, sep);
      var n := |s| - |last|;
      assert s[n..] == rest[|rest| - |last|..];
      if |last| < |rest| {
        assert s[n - 1] == rest[|rest| - |last| - 1];
      }
    } else {
      assert Split(s, sep) == [s];
    }
  }

  /** The extension is a suffix of the name; unless it is the whole name, a
      dot stands right before it. */
  lemma ExtensionIsLastPiece(name: string)
    ensures var ext := Extension(name);
            |ext| <= |name| && name[|name| - |ext|..] == ext
            && (ext != name ==> |ext| < |name| && name[|name| - |ext| - 1] == '.')
  {
    LastPieceIsSuffix(name, '.');
  }

  /** A name without a dot is its own extension. */
  lemma DotlessNameIsExtension(name: string)
    requires '.' !in name
    ensures Extension(name) == name
  {
    SplitWithoutSeparator(name, '.');
  }

  /** `uploads/${Date.now()}-${random}.${ext}` */
  function UploadPath(now: nat, random: string, name: string): (p: string)
    ensures StartsWith(p, "uploads/")
  {
    var p := "uploads/" + NumberToString(now) + "-" + random + "." + Extension(name);
    assert p[..8] == "uploads/";
    p
  }

  /** What the upload returns: the public URL and the original file name. */
  datatype Uploaded = Uploaded(url: string, name: string)

  /** The outcome of `uploadImage(file)`: the result, the path uploaded to
      (if the upload was attempted) and the final `progress`. The storage
      service answers `uploadError` and `publicUrl`. */
  datatype Outcome = Outcome(result: Option<Uploaded>, path: Option<string>, progress: Option<int>)

  function UploadOutcome(file: File, now: nat, random: string, uploadError: Option<string>, publicUrl: string): (o: Outcome)
    ensures Validate(file).Some? ==> o == Outcome(None, None, None)
    ensures Validate(file).None? ==> o.path == Some(UploadPath(now, random, file.name))
    ensures o.result.Some? <==> Validate(file).None? && uploadError.None?
    ensures o.result.Some? ==> o.result.value == Uploaded(publicUrl, file.name) && o.progress == Some(100)
    ensures Validate(file).None? && uploadError.Some? ==> o.progress == Some(0)
  {
    if Validate(file).Some? then Outcome(None, None, None)
    else
      var path := UploadPath(now, random, file.name);
      if uploadError.Some? then Outcome(None, Some(path), Some(0))
      else Outcome(Some(Uploaded(publicUrl, file.name)), Some(path), Some(100))
  }

  class Uploader {
    var uploading: bool
    var progress: int

    constructor ()
      ensures !uploading && progress == 0
    {
      uploading := false;
      progress := 0;
    }

    /** `uploadImage(file)`. A refused file leaves the state alone; an
        attempted upload ends with `uploading` false whatever happens. */
    method UploadImage(file: File, now: nat, random: string, uploadError: Option<string>, publicUrl: string)
      returns (result: Option<Uploaded>, path: Option<string>)
      modifies this
      ensures var o := UploadOutcome(file, now, random, uploadError, publicUrl);
              result == o.result && path == o.path
              && progress == (if o.progress.Some? then o.progress.value else old(progress))
      ensures Validate(file).Some? ==> uploading == old(uploading)
      ensures Validate(file).None? ==> !uploading
    {
      if file.size > MaxFileSize {
        return None, None;
      }
      if file.mimeType !in AllowedTypes {
        return None, None;
      }
      uploading := true;
      progress := 0;
      path := Some(UploadPath(now, random, file.name));
      if uploadError.Some? {
        result := None;
      } else {
        progress := 100;
        result := Some(Uploaded(publicUrl, file.name));
      }
      uploading := false;
    }
  }

  // ---------------------------------------------------------------------
  // Properties

  /** The size limit is inclusive: exactly 5 MiB of an allowed type passes,
      one byte more does not, whatever the type. */
  lemma SizeLimitIsInclusive(name: string, mimeType: string)
    requires mimeType in AllowedTypes
    ensures Validate(File(name, MaxFileSize, mimeType)).None?
    ensures Validate(File(name, MaxFileSize + 1, mimeType)) == Some(TooLarge)
    ensures Validate(File(name, MaxFileSize + 1, "text/html")) == Some(TooLarge)
  {
  }

  /** The uploaded object's name ends in a dot and the file's extension, and
      that extension has no dot of its own. */
  lemma PathEndsWithExtension(now: nat, random: string, name: string)
    ensures var p := UploadPath(now, random, name);
            var ext := Extension(name);
            '.' !in ext && |ext| < |p| && p[|p| - |ext|..] == ext && p[|p| - |ext| - 1] == '.'
  {
    var ext := Extension(name);
    var p := UploadPath(now, random, name);
    var head := "uploads/" + NumberToString(now) + "-" + random;
    assert p == head + "." + ext;
    assert p[|p| - |ext|..] == ext;
    assert p[|p| - |ext| - 1] == '.';
  }
}
