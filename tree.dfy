/** The directory tree below `Incoming/` as `filepath.Walk` sees it, shared
    by file discovery (main.go:272-307) and the removal of empty folders
    (main.go:559-590). */
module FileTree {
  import opened Paths

  /** A directory-entry name: not empty and without a separator. */
  type Name = s: string | s != "" && Separator !in s witness "x"

  /** An entry as Walk reaches it through `os.Lstat`: a non-directory (a
      regular file, or a symbolic link, which Walk does not follow), or a
      directory with its entries in the order Walk visits them. */
  datatype Node = File(name: Name) | Folder(name: Name, entries: seq<Node>)

  /** `strings.HasPrefix(name, ".")`. */
  predicate Hidden(name: string) {
    |name| > 0 && name[0] == '.'
  }

  /** The paths of all non-directories of the tree at `path`. */
  ghost function Files(path: string, n: Node): set<string>
    decreases n
  {
    match n
    case File(_) => {path}
    case Folder(_, es) => FilesIn(path, es)
  }

  /** The paths of all non-directories below the entries `es` of `dir`. */
  ghost function FilesIn(dir: string, es: seq<Node>): set<string>
    decreases es
  {
    if es == [] then {}
    else FilesIn(dir, es[..|es| - 1]) + Files(Join(dir, es[|es| - 1].name), es[|es| - 1])
  }

  /** The paths of the non-directories reached through visible names only:
      neither the file nor any folder on the way to it is hidden. */
  ghost function VisibleFiles(path: string, n: Node): set<string>
    decreases n
  {
    if Hidden(n.name) then {}
    else
      match n
      case File(_) => {path}
      case Folder(_, es) => VisibleFilesIn(path, es)
  }

  ghost function VisibleFilesIn(dir: string, es: seq<Node>): set<string>
    decreases es
  {
    if es == [] then {}
    else VisibleFilesIn(dir, es[..|es| - 1]) + VisibleFiles(Join(dir, es[|es| - 1].name), es[|es| - 1])
  }

  /** A file reached through visible names is a file of the tree. */
  lemma {:induction false} VisibleFilesAreFiles(path: string, n: Node)
    ensures VisibleFiles(path, n) <= Files(path, n)
    decreases n
  {
    if !Hidden(n.name) && n.Folder? {
      VisibleFilesInAreFiles(path, n.entries);
    }
  }

  lemma {:induction false} VisibleFilesInAreFiles(dir: string, es: seq<Node>)
    ensures VisibleFilesIn(dir, es) <= FilesIn(dir, es)
    decreases es
  {
    if es != [] {
      VisibleFilesInAreFiles(dir, es[..|es| - 1]);
      VisibleFilesAreFiles(Join(dir, es[|es| - 1].name), es[|es| - 1]);
    }
  }
}
