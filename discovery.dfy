/** `findFilesToOrganize` (main.go:272-307): the walk of `Incoming/` that
    collects the media files to organize. A directory that is hidden or one
    of the system folders is not entered; a hidden file is ignored; any
    other file is collected when its extension is a media extension. */
module Discovery {
  import opened Paths
  import opened Media
  import opened FileTree

  /** `skipFolders` (main.go:104-115): sync, filesystem and camera folders
      that hold no user photos. */
  const SkipFolders: set<string> :=
    {".stfolder", ".fseventsd", ".Trashes", ".Spotlight-V100", "PRIVATE", "AVF_INFO", "THMBNL"}

  /** A directory Walk is told to skip (`filepath.SkipDir`). */
  predicate Pruned(name: string) {
    Hidden(name) || name in SkipFolders
  }

  /** The paths collected from the tree at `path`, in walk order. */
  function Found(path: string, n: Node): seq<string>
    decreases n
  {
    match n
    case File(name) => if !Hidden(name) && IsMediaFile(Ext(path)) then [path] else []
    case Folder(name, es) => if Pruned(name) then [] else FoundIn(path, es)
  }

  /** The paths collected from the entries `es` of `dir`, in order. */
  function FoundIn(dir: string, es: seq<Node>): seq<string>
    decreases es
  {
    if es == [] then []
    else FoundIn(dir, es[..|es| - 1]) + Found(Join(dir, es[|es| - 1].name), es[|es| - 1])
  }

  /** The walk function applied to the tree at `path`, appending to
      `files`. */
  method Walk(path: string, n: Node, files: seq<string>) returns (files': seq<string>)
    ensures files' == files + Found(path, n)
    decreases n
  {
    files' := files;
    match n
    case File(name) =>
      if !Hidden(name) {
        var ext := Ext(path);
        if IsMediaFile(ext) {
          files' := files' + [path];
        }
      }
    case Folder(name, es) =>
      if !Pruned(name) {
        files' := WalkEntries(path, es, files');
      }
  }

  /** Walk's visit of the entries of a folder it enters, in order. */
  method WalkEntries(dir: string, es: seq<Node>, files: seq<string>) returns (files': seq<string>)
    ensures files' == files + FoundIn(dir, es)
    decreases es
  {
    files' := files;
    for k := 0 to |es|
      invariant files' == files + FoundIn(dir, es[..k])
    {
      assert es[..k + 1][..k] == es[..k];
      files' := Walk(Join(dir, es[k].name), es[k], files');
    }
    assert es[..|es|] == es;
  }

  /** `findFilesToOrganize`, with `top` the tree at `incoming`. */
  method FindFilesToOrganize(incoming: string, top: Node) returns (files: seq<string>)
    ensures files == Found(incoming, top)
  {
    files := Walk(incoming, top, []);
  }

  /** Every collected path is a file of the tree reached through visible
      names, and has a media extension. */
  lemma {:induction false} FoundAreVisibleMedia(path: string, n: Node)
    ensures forall p :: p in Found(path, n) ==> p in VisibleFiles(path, n) && IsMediaFile(Ext(p))
    decreases n
  {
    if n.Folder? && !Pruned(n.name) {
      FoundInAreVisibleMedia(path, n.entries);
    }
  }

  lemma {:induction false} FoundInAreVisibleMedia(dir: string, es: seq<Node>)
    ensures forall p :: p in FoundIn(dir, es) ==> p in VisibleFilesIn(dir, es) && IsMediaFile(Ext(p))
    decreases es
  {
    if es != [] {
      FoundInAreVisibleMedia(dir, es[..|es| - 1]);
      FoundAreVisibleMedia(Join(dir, es[|es| - 1].name), es[|es| - 1]);
    }
  }

  /** The files Walk reaches in the tree at `path`: through the folders it
      enters, the tree's own folder included, under names that are not
      hidden. */
  ghost function Reachable(path: string, n: Node): set<string>
    decreases n
  {
    match n
    case File(name) => if Hidden(name) then {} else {path}
    case Folder(name, es) => if Pruned(name) then {} else ReachableIn(path, es)
  }

  ghost function ReachableIn(dir: string, es: seq<Node>): set<string>
    decreases es
  {
    if es == [] then {}
    else ReachableIn(dir, es[..|es| - 1]) + Reachable(Join(dir, es[|es| - 1].name), es[|es| - 1])
  }

  /** The walk collects exactly the files it reaches whose extension is a
      media extension. */
  lemma {:induction false} FoundExactly(path: string, n: Node)
    ensures forall p :: p in Found(path, n) <==> p in Reachable(path, n) && IsMediaFile(Ext(p))
    decreases n
  {
    if n.Folder? && !Pruned(n.name) {
      FoundInExactly(path, n.entries);
    }
  }

  lemma {:induction false} FoundInExactly(dir: string, es: seq<Node>)
    ensures forall p :: p in FoundIn(dir, es) <==> p in ReachableIn(dir, es) && IsMediaFile(Ext(p))
    decreases es
  {
    if es != [] {
      FoundInExactly(dir, es[..|es| - 1]);
      FoundExactly(Join(dir, es[|es| - 1].name), es[|es| - 1]);
    }
  }

  /** No folder of the tree is one Walk skips. */
  predicate NothingPruned(n: Node)
    decreases n
  {
    match n
    case File(_) => true
    case Folder(name, es) => !Pruned(name) && forall i :: 0 <= i < |es| ==> NothingPruned(es[i])
  }

  /** When no folder is skipped, every file reached through visible names
      whose extension is a media extension is collected. */
  lemma {:induction false} FoundComplete(path: string, n: Node, p: string)
    requires NothingPruned(n)
    requires p in VisibleFiles(path, n) && IsMediaFile(Ext(p))
    ensures p in Found(path, n)
    decreases n
  {
    if n.Folder? {
      FoundInComplete(path, n.entries, p);
    }
  }

  lemma {:induction false} FoundInComplete(dir: string, es: seq<Node>, p: string)
    requires forall i :: 0 <= i < |es| ==> NothingPruned(es[i])
    requires p in VisibleFilesIn(dir, es) && IsMediaFile(Ext(p))
    ensures p in FoundIn(dir, es)
    decreases es
  {
    var prefix := es[..|es| - 1];
    var last := es[|es| - 1];
    if p in VisibleFilesIn(dir, prefix) {
      assert forall i :: 0 <= i < |prefix| ==> prefix[i] == es[i];
      FoundInComplete(dir, prefix, p);
    } else {
      FoundComplete(Join(dir, last.name), last, p);
    }
  }

  /** Nothing is collected below a skipped folder, whatever it holds. */
  lemma SkippedFolderExample(dir: string)
    ensures FoundIn(dir, [Folder("PRIVATE", [File("clip.MP4")]), File(".DS_Store.jpg")]) == []
  {
    var es: seq<Node> := [Folder("PRIVATE", [File("clip.MP4")]), File(".DS_Store.jpg")];
    assert es[..1][..0] == [];
    assert Hidden(es[1].name);
  }
}
