/** Slash-separated path helpers standing for the parts of Go's
    `path/filepath` (and `strings.TrimSuffix`, `strings.Split`) that the
    organizer uses. */
module Paths {

  const Separator: char := '/'

  /** A single directory-entry name: never contains the separator. */
  type EntryName = s: string | Separator !in s witness "x"

  /** Index of the last separator in `s[..i]`, or -1 when there is none. */
  function LastSeparator(s: string, i: nat): (r: int)
    requires i <= |s|
    ensures -1 <= r < i
    ensures r >= 0 ==> s[r] == Separator
    ensures forall k :: r < k < i ==> s[k] != Separator
  {
    if i == 0 then -1
    else if s[i - 1] == Separator then i - 1
    else LastSeparator(s, i - 1)
  }

  /** The final element of a path: everything after its last separator. */
  function FinalElement(path: string): (r: string)
    ensures Separator !in r
    ensures |r| <= |path| && r == path[|path| - |r|..]
  {
    path[LastSeparator(path, |path|) + 1..]
  }

  /** Backward scan of `s[..i]` for a '.': the suffix of `s` from the last
      dot before `i`, or "" when there is none. */
  function DotSuffix(s: string, i: nat): (r: string)
    requires i <= |s|
    requires forall k :: i <= k < |s| ==> s[k] != '.'
    ensures r != "" ==> |r| <= |s| && r == s[|s| - |r|..] && r[0] == '.'
    ensures forall k :: 1 <= k < |r| ==> r[k] != '.'
    ensures r == "" ==> forall k :: 0 <= k < |s| ==> s[k] != '.'
  {
    if i == 0 then ""
    else if s[i - 1] == '.' then s[i - 1..]
    else DotSuffix(s, i - 1)
  }

  /** `filepath.Ext`: Go scans back from the end and stops at a separator;
      the result is the suffix of the final element from its last '.', or ""
      when the final element has no '.'. */
  function Ext(path: string): (r: string)
    ensures r != "" ==> |r| <= |path| && r == path[|path| - |r|..] && r[0] == '.'
    ensures Separator !in r
    ensures forall k :: 1 <= k < |r| ==> r[k] != '.'
    ensures r == "" ==> '.' !in FinalElement(path)
  {
    var name := FinalElement(path);
    DotSuffix(name, |name|)
  }

  /** `strings.TrimSuffix`. */
  function TrimSuffix(s: string, suffix: string): (r: string)
    ensures |suffix| <= |s| && s[|s| - |suffix|..] == suffix ==> r + suffix == s
    ensures !(|suffix| <= |s| && s[|s| - |suffix|..] == suffix) ==> r == s
  {
    if |suffix| <= |s| && s[|s| - |suffix|..] == suffix then s[..|s| - |suffix|] else s
  }

  /** Cutting the extension off a path and putting it back gives the path. */
  lemma StemAndExt(path: string)
    ensures TrimSuffix(path, Ext(path)) + Ext(path) == path
  {
    var e := Ext(path);
    if e == "" {
      assert path[|path|..] == e;
    }
  }

  /** `filepath.Join` of two parts, without Go's `Clean`. The library root
      is used as typed (main.go:874-875), so a root such as "/photos/" makes
      this give "/photos//Incoming" where Go gives "/photos/Incoming". Every
      path of the model is built by this `Join` from the same root, and
      relative paths are taken by cutting `root + "/"`, so no relative path,
      base name, extension or decision depends on the difference. */
  function Join(dir: string, name: string): string {
    dir + [Separator] + name
  }

  /** `filepath.Base`: the last element after trailing separators are
      removed; "." for the empty path and "/" for a path of separators only. */
  function Base(path: string): (r: string)
    ensures r != ""
  {
    if path == "" then "."
    else
      var t := TrimTrailingSeparators(path);
      if t == "" then [Separator] else FinalElement(t)
  }

  function TrimTrailingSeparators(s: string): (r: string)
    ensures |r| <= |s| && r == s[..|r|]
    ensures r != "" ==> r[|r| - 1] != Separator
    ensures forall k :: |r| <= k < |s| ==> s[k] == Separator
  {
    if s != "" && s[|s| - 1] == Separator then TrimTrailingSeparators(s[..|s| - 1]) else s
  }

  /** `filepath.Dir` without its final `Clean`: the
      part before the last separator ("." without one, "/" for a root child). */
  function Dir(path: string): (r: string)
  {
    var i := LastSeparator(path, |path|);
    if i < 0 then "." else if i == 0 then [Separator] else path[..i]
  }

  /** `filepath.Rel(base, target)` for a target inside `base`. */
  function RelPath(base: string, target: string): (r: string)
    ensures target == base ==> r == "."
    ensures Within(base, target) ==> Join(base, r) == target
  {
    if target == base then "."
    else if |base| < |target| && target[..|base| + 1] == base + [Separator] then
      assert target == target[..|base| + 1] + target[|base| + 1..];
      target[|base| + 1..]
    else target
  }

  /** `p` names something strictly inside directory `dir`. */
  predicate Within(dir: string, p: string) {
    |dir| < |p| && p[..|dir| + 1] == dir + [Separator]
  }

  /** `strings.Split(s, "/")[0]`: everything before the first separator. */
  function FirstComponent(s: string): (r: string)
    ensures Separator !in r
    ensures |r| <= |s| && r == s[..|r|]
    ensures |r| < |s| ==> s[|r|] == Separator
  {
    if s == "" then ""
    else if s[0] == Separator then ""
    else [s[0]] + FirstComponent(s[1..])
  }

  /** The extension of a path is that of its final element. */
  lemma ExtOfJoin(dir: string, name: EntryName)
    ensures Ext(Join(dir, name)) == Ext(name)
  {
    LastSeparatorOfJoin(dir, name);
    assert FinalElement(Join(dir, name)) == name;
    assert LastSeparator(name, |name|) == -1;
    assert FinalElement(name) == name;
  }

  /** The final element of `dir/name` is `name`, unchanged. */
  lemma BaseOfJoin(dir: string, name: EntryName)
    requires name != ""
    ensures Base(Join(dir, name)) == name
  {
    var p := Join(dir, name);
    assert TrimTrailingSeparators(p) == p;
    LastSeparatorOfJoin(dir, name);
    assert FinalElement(p) == name;
  }

  /** The directory of `dir/name` is `dir`. */
  lemma DirOfJoin(dir: string, name: EntryName)
    requires dir != ""
    ensures Dir(Join(dir, name)) == dir
  {
    LastSeparatorOfJoin(dir, name);
  }

  /** A path holding anything besides separators has a base name without a
      separator: one directory-entry name. */
  lemma BaseIsEntryName(p: string, i: nat)
    requires i < |p| && p[i] != Separator
    ensures Separator !in Base(p)
  {
    assert i < |TrimTrailingSeparators(p)|;
  }

  /** Appending text without a separator keeps the last separator. */
  lemma LastSeparatorOfAppend(s: string, t: string)
    requires Separator !in t
    ensures LastSeparator(s + t, |s + t|) == LastSeparator(s, |s|)
  {
    var st := s + t;
    var r1, r2 := LastSeparator(st, |st|), LastSeparator(s, |s|);
    if r2 >= 0 {
      assert st[r2] == s[r2];
    }
    if r1 >= 0 {
      assert s[r1] == st[r1];
    }
  }

  /** The backward scan from any point inside a final `.ext` (a dot with
      no dot after it) returns that `.ext`. */
  lemma {:induction false} DotSuffixOfExt(x: string, e: string, i: nat)
    requires e != "" && |e| <= |x| && x[|x| - |e|..] == e && e[0] == '.'
    requires forall k :: 1 <= k < |e| ==> e[k] != '.'
    requires |x| - |e| < i <= |x|
    ensures forall k :: i <= k < |x| ==> x[k] != '.'
    ensures DotSuffix(x, i) == e
    decreases i
  {
    var j := |x| - |e|;
    assert forall k :: j < k < |x| ==> x[k] == e[k - j];
    if i - 1 > j {
      DotSuffixOfExt(x, e, i - 1);
    }
  }

  /** The last `m` characters of `a + t` are those of `t`. */
  lemma SuffixOfAppend(a: string, t: string, m: nat)
    requires m <= |t|
    ensures (a + t)[|a + t| - m..] == t[|t| - m..]
  {
    assert forall k :: |t| - m <= k < |t| ==> (a + t)[|a| + k] == t[k];
  }

  /** The final element of `path + t`, where `t` holds no separator, is
      that of `path` followed by `t`. */
  lemma FinalElementOfAppend(path: string, t: string)
    requires Separator !in t
    ensures FinalElement(path + t) == FinalElement(path) + t
  {
    LastSeparatorOfAppend(path, t);
  }

  /** A final element without a dot has no extension. */
  lemma NoDotNoExt(path: string)
    requires '.' !in FinalElement(path)
    ensures Ext(path) == ""
  {
  }

  /** The extension of `path + t`, where `t` holds no separator: `e` when
      `t` ends in `e`, a dot with no dot after it; "" when neither the final
      element of `path` nor `t` holds a dot. */
  lemma ExtOfAppend(path: string, t: string, e: string)
    requires Separator !in t
    requires e == "" ==> '.' !in FinalElement(path) && '.' !in t
    requires e != "" ==> |e| <= |t| && t[|t| - |e|..] == e && e[0] == '.'
    requires forall k :: 1 <= k < |e| ==> e[k] != '.'
    ensures Ext(path + t) == e
  {
    FinalElementOfAppend(path, t);
    var f := FinalElement(path);
    var x := f + t;
    if e == "" {
      forall k | 0 <= k < |x|
        ensures x[k] != '.'
      {
        if k < |f| {
          assert x[k] == f[k];
        } else {
          assert x[k] == t[k - |f|];
        }
      }
      NoDotNoExt(path + t);
    } else {
      SuffixOfAppend(f, t, |e|);
      DotSuffixOfExt(x, e, |x|);
    }
  }

  /** `stem + sep + mid + e` keeps the extension `e` when `sep + mid` holds
      neither a separator nor a dot and `e` is an extension of its own. */
  lemma ExtOfSuffixed(stem: string, sep: string, mid: string, e: string)
    requires Separator !in sep + mid + e && '.' !in sep + mid
    requires e == "" ==> '.' !in FinalElement(stem)
    requires e != "" ==> e[0] == '.'
    requires forall k :: 1 <= k < |e| ==> e[k] != '.'
    ensures Ext(stem + sep + mid + e) == e
  {
    var t := sep + mid + e;
    assert stem + sep + mid + e == stem + t;
    assert t[|t| - |e|..] == e;
    if e == "" {
      assert t == sep + mid;
    }
    ExtOfAppend(stem, t, e);
  }

  lemma LastSeparatorOfJoin(dir: string, name: EntryName)
    ensures LastSeparator(Join(dir, name), |Join(dir, name)|) == |dir|
  {
    var p := Join(dir, name);
    assert p[|dir|] == Separator;
    assert forall k :: |dir| < k < |p| ==> p[k] == name[k - |dir| - 1];
  }
}
