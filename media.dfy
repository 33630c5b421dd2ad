/** Media classification by file extension (main.go:65-102, 164-175). */
module Media {
  import opened Text

  /** Photo extensions: EXIF capture dates are read from these files. */
  const PhotoExts: set<string> :=
    {".jpg", ".jpeg", ".png", ".gif", ".heic", ".hif", ".dng", ".arw", ".cr2", ".nef", ".raf"}

  const VideoExts: set<string> := {".mp4", ".mov", ".avi", ".mkv"}

  /** Audio extensions, mainly the sound files that accompany drone videos. */
  const AudioExts: set<string> := {".wav", ".mp3"}

  /** Sidecar extensions: metadata files that accompany photos. */
  const SidecarExts: set<string> := {".lrf", ".xmp", ".json"}

  datatype Category = Photo | Video | Audio | Sidecar | Unsupported

  /** The table an extension belongs to, compared after lower-casing. The
      four tables are disjoint, so the order of the tests does not matter. */
  function Classify(ext: string): (c: Category)
    ensures c == Photo <==> ToLower(ext) in PhotoExts
    ensures c == Video <==> ToLower(ext) in VideoExts
    ensures c == Audio <==> ToLower(ext) in AudioExts
    ensures c == Sidecar <==> ToLower(ext) in SidecarExts
  {
    var e := ToLower(ext);
    if e in PhotoExts then Photo
    else if e in VideoExts then Video
    else if e in AudioExts then Audio
    else if e in SidecarExts then Sidecar
    else Unsupported
  }

  /** `isMediaFile`: the extension, lower-cased, is in one of the four tables. */
  predicate IsMediaFile(ext: string) {
    var e := ToLower(ext);
    e in PhotoExts || e in VideoExts || e in AudioExts || e in SidecarExts
  }

  /** `isPhotoFile`: the extension, lower-cased, is a photo extension. */
  predicate IsPhotoFile(ext: string) {
    ToLower(ext) in PhotoExts
  }

  /** Media files are exactly the supported categories, and photo files
      exactly the Photo category. */
  lemma ClassifyAgrees(ext: string)
    ensures IsMediaFile(ext) <==> Classify(ext) != Unsupported
    ensures IsPhotoFile(ext) <==> Classify(ext) == Photo
    ensures IsMediaFile(ext) <==> ToLower(ext) in PhotoExts + VideoExts + AudioExts + SidecarExts
  {
  }

  /** Every photo is a media file. */
  lemma PhotoIsMedia(ext: string)
    requires IsPhotoFile(ext)
    ensures IsMediaFile(ext)
  {
  }

  /** Both tests ignore letter case: an extension and its lower-cased
      form are classified alike, and so is its upper-cased form unless it
      holds a DOTLESS I or a LONG S. */
  lemma CaseInsensitive(ext: string)
    ensures IsMediaFile(ext) == IsMediaFile(ToLower(ext))
    ensures IsPhotoFile(ext) == IsPhotoFile(ToLower(ext))
    ensures Classify(ext) == Classify(ToLower(ext))
    ensures (forall i :: 0 <= i < |ext| ==> !UppersIntoAscii(ext[i])) ==>
              IsMediaFile(ToUpper(ext)) == IsMediaFile(ext) && IsPhotoFile(ToUpper(ext)) == IsPhotoFile(ext)
              && Classify(ToUpper(ext)) == Classify(ext)
  {
    LowerOfUpper(ext);
    LowerIdempotent(ext);
  }

  /** Upper-casing can change the verdict: ".gıf" (with a DOTLESS I) is
      not a photo, but its upper-cased form ".GIF" is. */
  lemma DotlessIExample()
    ensures !IsPhotoFile(".g\U{0131}f") && IsPhotoFile(ToUpper(".g\U{0131}f"))
  {
    assert ToLower(".g\U{0131}f") == ".g\U{0131}f";
    assert ToUpper(".g\U{0131}f") == ".GIF";
    assert ToLower(".GIF") == ".gif";
  }

  /** Upper-case camera extensions are recognised: a JPEG is a photo, an
      MP4 and a drone's LRF are media but not photos. */
  lemma UpperCaseExamples()
    ensures IsPhotoFile(".JPG") && IsMediaFile(".JPG")
    ensures IsMediaFile(".MP4") && !IsPhotoFile(".MP4")
    ensures IsMediaFile(".LRF") && !IsPhotoFile(".LRF")
  {
    assert ToLower(".JPG") == ".jpg";
    assert ToLower(".MP4") == ".mp4";
    assert ToLower(".LRF") == ".lrf";
  }

  /** Neither a text file nor a name without extension is a media file. */
  lemma UnsupportedExamples()
    ensures !IsMediaFile(".txt") && !IsMediaFile("")
  {
    assert ToLower(".txt") == ".txt";
  }
}
