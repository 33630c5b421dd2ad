/** Destination paths (`getDestination`, main.go:313-322) and the `_N`
    suffixes tried when a different file already holds the destination
    name (main.go:358-368). */
module Planner {
  import opened Text
  import opened Calendar
  import opened Paths

  /** The folder a file dated `date` belongs in: `originals/YYYY/YYYY-MM-DD`. */
  function DateDir(originals: string, date: Instant): string {
    Join(Join(originals, FormatYear(date.year)), DateFolder(date))
  }

  /** The date folder lies under `originals`. */
  lemma DateDirWithin(originals: string, date: Instant)
    ensures Within(originals, DateDir(originals, date))
  {
    var yearDir := Join(originals, FormatYear(date.year));
    PrefixOfJoin(yearDir, DateFolder(date), |originals| + 1);
  }

  lemma PrefixOfJoin(dir: string, name: string, n: nat)
    requires n <= |dir|
    ensures Join(dir, name)[..n] == dir[..n]
  {
    assert Join(dir, name)[..n] == Join(dir, name)[..|dir|][..n];
  }

  /** `getDestination`: the file's base name inside its date folder. */
  function Destination(originals: string, src: string, date: Instant): (dest: string)
  {
    Join(DateDir(originals, date), Base(src))
  }

  /** The year and date folder names never contain a separator. */
  lemma FolderNamesAreEntryNames(date: Instant)
    ensures Separator !in FormatYear(date.year)
    ensures Separator !in DateFolder(date)
  {
    YearHasNoSeparator(date.year);
    var y := FormatYear(date.year);
    var m, d := Pad2(date.month), Pad2(date.day);
    assert DateFolder(date) == y + "-" + m + "-" + d;
    assert Separator !in m && Separator !in d;
  }

  lemma YearHasNoSeparator(year: int)
    ensures Separator !in FormatYear(year)
  {
    var y := FormatYear(year);
    YearDigits(year);
    if year < 0 {
      assert y == [y[0]] + y[1..];
      assert Separator !in y[1..];
    }
  }

  /** The date folder sits two levels below `originals`: a year folder, then a
      folder whose name starts with that year. */
  lemma DateDirShape(originals: string, date: Instant)
    requires originals != ""
    ensures var y := FormatYear(date.year);
      && Dir(DateDir(originals, date)) == Join(originals, y)
      && Base(DateDir(originals, date)) == DateFolder(date)
      && Dir(Join(originals, y)) == originals
      && Base(Join(originals, y)) == y
      && DateFolder(date)[..|y|] == y
  {
    FolderNamesAreEntryNames(date);
    var y: EntryName := FormatYear(date.year);
    var f: EntryName := DateFolder(date);
    YearPrefixOfDateFolder(date);
    assert y != "" && f != "" by { assert |f| >= |y| + 6; }
    DirOfJoin(originals, y);
    BaseOfJoin(originals, y);
    DirOfJoin(Join(originals, y), f);
    BaseOfJoin(Join(originals, y), f);
  }

  /** The destination of `dir/name` keeps the base name `name` unchanged and
      lies directly in the date folder. */
  lemma DestinationShape(originals: string, dir: string, name: EntryName, date: Instant)
    requires originals != "" && name != ""
    ensures Destination(originals, Join(dir, name), date) == Join(DateDir(originals, date), name)
    ensures Base(Destination(originals, Join(dir, name), date)) == name
    ensures Dir(Destination(originals, Join(dir, name), date)) == DateDir(originals, date)
  {
    BaseOfJoin(dir, name);
    BaseOfJoin(DateDir(originals, date), name);
    DirOfJoin(DateDir(originals, date), name);
  }

  // ---------------------------------------------------------------------------
  // Collision suffixes
  // ---------------------------------------------------------------------------

  /** `fmt.Sprintf("%s_%d%s", base, counter, ext)` with `ext` the extension
      of `dest` and `base` the rest of it. */
  function ProbePath(dest: string, n: nat): string {
    TrimSuffix(dest, Ext(dest)) + "_" + Itoa(n) + Ext(dest)
  }

  /** A suffixed name keeps the extension of the name it replaces. */
  lemma ProbeExt(dest: string, n: nat)
    ensures Ext(ProbePath(dest, n)) == Ext(dest)
  {
    var ext := Ext(dest);
    var digits := Itoa(n);
    assert '.' !in "_" + digits && Separator !in "_" + digits + ext by {
      forall k | 0 <= k < |digits| ensures digits[k] != '.' && digits[k] != Separator {
        assert IsDigit(digits[k]);
      }
    }
    ExtOfSuffixed(TrimSuffix(dest, ext), "_", digits, ext);
  }

  /** A suffixed name stays in the folder of the name it replaces. */
  lemma ProbeDir(dir: string, name: EntryName, n: nat)
    requires dir != ""
    ensures Dir(ProbePath(Join(dir, name), n)) == dir
  {
    var dest := Join(dir, name);
    var ext := Ext(dest);
    var stem := TrimSuffix(dest, ext);
    var digits := Itoa(n);
    assert ProbePath(dest, n) == stem + "_" + digits + ext;
    StemAndExt(dest);
    ExtOfJoin(dir, name);
    assert |ext| <= |name|;
    StemOfJoin(dir, name, stem, ext);
    InsertedEntry(dir, name[..|name| - |ext|], digits, ext);
  }

  /** Cutting a suffix no longer than the final name cuts it from that name. */
  lemma StemOfJoin(dir: string, name: string, stem: string, ext: string)
    requires stem + ext == Join(dir, name) && |ext| <= |name|
    ensures stem == Join(dir, name[..|name| - |ext|])
  {
    assert stem == (stem + ext)[..|stem|];
  }

  /** Inserting separator-free text into a final name keeps its folder. */
  lemma InsertedEntry(dir: string, kept: string, digits: string, ext: string)
    requires dir != "" && Separator !in kept && Separator !in ext
    requires AllDigits(digits)
    ensures Dir(Join(dir, kept) + "_" + digits + ext) == dir
  {
    var mid := "_" + digits;
    var e := kept + mid + ext;
    assert Separator !in e by {
      forall k | 0 <= k < |e|
        ensures e[k] != Separator
      {
        if k < |kept| {
          assert e[k] == kept[k];
        } else if k < |kept| + |mid| {
          assert e[k] == mid[k - |kept|];
        } else {
          assert e[k] == ext[k - |kept| - |mid|];
        }
      }
    }
    assert Join(dir, kept) + "_" + digits + ext == Join(dir, e);
    DirOfJoin(dir, e);
  }

  /** Different counters give different names. */
  lemma ProbeInjective(dest: string, a: nat, b: nat)
    requires ProbePath(dest, a) == ProbePath(dest, b)
    ensures a == b
  {
    var base, ext := TrimSuffix(dest, Ext(dest)), Ext(dest);
    var pa, pb := ProbePath(dest, a), ProbePath(dest, b);
    assert |Itoa(a)| == |Itoa(b)|;
    var lo := |base| + 1;
    assert pa[lo..lo + |Itoa(a)|] == Itoa(a);
    assert pb[lo..lo + |Itoa(b)|] == Itoa(b);
    ItoaInjective(a, b);
  }

  /** The names for counters 1..c-1. */
  function Probed(dest: string, c: nat): set<string> {
    set k: nat | 1 <= k < c :: ProbePath(dest, k)
  }

  /** There are exactly c-1 of them, all different. */
  lemma {:induction false} ProbedCount(dest: string, c: nat)
    requires 1 <= c
    ensures |Probed(dest, c)| == c - 1
  {
    if c > 1 {
      ProbedCount(dest, c - 1);
      ProbedGrows(dest, c - 1);
    }
  }

  /** One more counter adds one new name. */
  lemma ProbedGrows(dest: string, c: nat)
    requires 1 <= c
    ensures Probed(dest, c + 1) == Probed(dest, c) + {ProbePath(dest, c)}
    ensures ProbePath(dest, c) !in Probed(dest, c)
  {
    forall k: nat | 1 <= k < c
      ensures ProbePath(dest, k) != ProbePath(dest, c)
    {
      if ProbePath(dest, k) == ProbePath(dest, c) {
        ProbeInjective(dest, k, c);
      }
    }
  }

  /** If counters 1..c-1 all name existing files, there are at least c-1
      existing files: the probe loop cannot run past |existing| + 1. */
  lemma ProbeBound(existing: set<string>, dest: string, c: nat)
    requires 1 <= c
    requires forall k: nat :: 1 <= k < c ==> ProbePath(dest, k) in existing
    ensures c - 1 <= |existing|
  {
    ProbedCount(dest, c);
    assert Probed(dest, c) <= existing;
    SubsetCard(Probed(dest, c), existing);
  }

  lemma SubsetCard<T>(a: set<T>, b: set<T>)
    requires a <= b
    ensures |a| <= |b|
  {
    assert b == a + (b - a);
  }

  /** The smallest counter c' >= c whose name is free, given that the
      counters 1..c-1 are all taken. */
  function FreeCounter(existing: set<string>, dest: string, c: nat): (r: nat)
    requires 1 <= c
    requires forall k: nat :: 1 <= k < c ==> ProbePath(dest, k) in existing
    ensures c <= r && ProbePath(dest, r) !in existing
    ensures forall k: nat :: 1 <= k < r ==> ProbePath(dest, k) in existing
    decreases |existing| - (c - 1)
  {
    ProbeBound(existing, dest, c);
    if ProbePath(dest, c) !in existing then c
    else
      ProbeBound(existing, dest, c + 1);
      FreeCounter(existing, dest, c + 1)
  }

  /** The name chosen for a file whose destination is taken by a different
      file: `base_N.ext` with the smallest N >= 1 that is free. */
  function FreeName(existing: set<string>, dest: string): (p: string)
    ensures p !in existing
  {
    ProbePath(dest, FreeCounter(existing, dest, 1))
  }

  /** The suffixed name is free, every smaller counter is taken, and it is
      the smallest such counter. */
  lemma FreeNameIsSmallest(existing: set<string>, dest: string)
    ensures exists n: nat :: (1 <= n && FreeName(existing, dest) == ProbePath(dest, n)
      && forall k: nat :: 1 <= k < n ==> ProbePath(dest, k) in existing)
  {
    var n := FreeCounter(existing, dest, 1);
    assert FreeName(existing, dest) == ProbePath(dest, n);
  }
}
