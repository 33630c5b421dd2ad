/** The capture-date fallback chain of `getFileDate` (main.go:215-244):
    EXIF for photos, then the file name, then the modification time, then
    the current time. The EXIF read, the `os.Stat` modification time and the
    clock are inputs. */
module DateResolver {
  import opened Options
  import opened Calendar
  import opened Media
  import opened Paths
  import opened FilenameDates

  /** `getFileDate(path)`. `exif` is what reading the EXIF DateTime of the
      file gives (None when the file cannot be opened or decoded), `mtime`
      what `os.Stat` gives (None when it fails), `now` the clock. */
  function GetFileDate(path: string, exif: Option<Instant>, mtime: Option<Instant>, now: Instant): Instant
  {
    if IsPhotoFile(Ext(path)) && exif.Some? then exif.value
    else if DateFromFilename(Base(path)).Some? then DateFromFilename(Base(path)).value
    else if mtime.Some? then mtime.value
    else now
  }

  /** The result is always one of the four candidates, and an EXIF date
      that no other candidate supplies is taken only for a photo. */
  lemma GetFileDateCandidates(path: string, exif: Option<Instant>, mtime: Option<Instant>, now: Instant)
    ensures var t := GetFileDate(path, exif, mtime, now);
      t == now || Some(t) == exif || Some(t) == DateFromFilename(Base(path)) || Some(t) == mtime
    ensures var t := GetFileDate(path, exif, mtime, now);
      var onlyExif := Some(t) == exif && exif != DateFromFilename(Base(path)) && exif != mtime && t != now;
      onlyExif ==> IsPhotoFile(Ext(path))
  {
  }

  /** A photo with a readable EXIF date resolves to it, whatever its name,
      modification time and the clock say. */
  lemma ExifWinsForPhotos(path: string, exif: Instant, mtime: Option<Instant>, now: Instant)
    requires IsPhotoFile(Ext(path))
    ensures GetFileDate(path, Some(exif), mtime, now) == exif
  {
  }

  /** EXIF is consulted only for photo extensions: for any other file the
      EXIF input makes no difference. */
  lemma ExifIgnoredForOthers(path: string, e1: Option<Instant>, e2: Option<Instant>, mtime: Option<Instant>, now: Instant)
    requires !IsPhotoFile(Ext(path))
    ensures GetFileDate(path, e1, mtime, now) == GetFileDate(path, e2, mtime, now)
  {
  }

  /** Without a usable EXIF date, a date in the file name beats the
      modification time and the clock. */
  lemma FilenameBeatsMtime(path: string, exif: Option<Instant>, mtime: Option<Instant>, now: Instant)
    requires !(IsPhotoFile(Ext(path)) && exif.Some?)
    requires DateFromFilename(Base(path)).Some?
    ensures GetFileDate(path, exif, mtime, now) == DateFromFilename(Base(path)).value
  {
  }

  /** The clock is used only when the stat also fails. */
  lemma NowOnlyWithoutStat(path: string, exif: Option<Instant>, mtime: Instant, n1: Instant, n2: Instant)
    ensures GetFileDate(path, exif, Some(mtime), n1) == GetFileDate(path, exif, Some(mtime), n2)
  {
  }

  /** The non-photo case of the fallback order: a video (or any other
      non-photo file) with a dated name resolves to the name's date, whatever
      EXIF, modification time and clock inputs are given. */
  lemma NonPhotoUsesFilename(path: string, exif: Option<Instant>, mtime: Option<Instant>, now: Instant)
    requires !IsPhotoFile(Ext(path))
    requires DateFromFilename(Base(path)).Some?
    ensures GetFileDate(path, exif, mtime, now) == DateFromFilename(Base(path)).value
  {
  }
}
