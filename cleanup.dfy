/** `cleanupEmptyFolders` (main.go:559-590): a walk of `Incoming/` that
    removes, with everything in it, every folder below the top whose entries
    are all hidden, and counts the removals. Walk reads a folder's names,
    then calls the walk function on the folder, then visits the names; once
    the folder is removed every entry's `Lstat` fails and the walk function
    returns on that error, so nothing below it is entered. A folder is thus
    checked before its entries are, and a folder whose only entry is an
    empty folder is kept by this run. Unlike discovery, this walk enters hidden and system folders. */
module Cleanup {
  import opened Paths
  import opened FileTree
  import opened Discovery

  /** The number of entries whose names are visible. */
  function Visible(es: seq<Node>): nat {
    if es == [] then 0
    else Visible(es[..|es| - 1]) + (if Hidden(es[|es| - 1].name) then 0 else 1)
  }

  /** No visible entry exactly when every entry is hidden. */
  lemma {:induction false} VisibleZero(es: seq<Node>)
    ensures Visible(es) == 0 <==> forall i :: 0 <= i < |es| ==> Hidden(es[i].name)
  {
    if es != [] {
      var prefix := es[..|es| - 1];
      VisibleZero(prefix);
      assert forall i :: 0 <= i < |prefix| ==> prefix[i] == es[i];
    }
  }

  /** The counting loop over `os.ReadDir(path)` (main.go:572-577). */
  method CountVisible(es: seq<Node>) returns (visible: nat)
    ensures visible == Visible(es)
  {
    visible := 0;
    for k := 0 to |es|
      invariant visible == Visible(es[..k])
    {
      assert es[..k + 1][..k] == es[..k];
      if !Hidden(es[k].name) {
        visible := visible + 1;
      }
    }
    assert es[..|es|] == es;
  }

  /** A folder the walk removes: none of its entries is visible. */
  predicate Empty(n: Node) {
    n.Folder? && Visible(n.entries) == 0
  }

  /** The entries of a folder the walk enters, after the walk: empty folders
      are gone and the others have been swept in turn. */
  function SweepEntries(es: seq<Node>): seq<Node>
    decreases es
  {
    if es == [] then []
    else
      var rest := SweepEntries(es[..|es| - 1]);
      var e := es[|es| - 1];
      if Empty(e) then rest else rest + [Sweep(e)]
  }

  /** An entry the walk keeps, after the walk. */
  function Sweep(n: Node): Node
    decreases n
  {
    match n
    case File(_) => n
    case Folder(name, es) => Folder(name, SweepEntries(es))
  }

  /** The number of folders removed among `es` and below them. */
  function RemovedIn(es: seq<Node>): nat
    decreases es
  {
    if es == [] then 0
    else
      var e := es[|es| - 1];
      RemovedIn(es[..|es| - 1]) + (if Empty(e) then 1 else if e.Folder? then RemovedIn(e.entries) else 0)
  }

  /** The walk below a folder it enters: each entry in order, an empty
      folder removed and counted, any other folder entered. */
  method SweepFolder(es: seq<Node>) returns (kept: seq<Node>, removed: nat)
    ensures kept == SweepEntries(es) && removed == RemovedIn(es)
    decreases es
  {
    kept := [];
    removed := 0;
    for k := 0 to |es|
      invariant kept == SweepEntries(es[..k]) && removed == RemovedIn(es[..k])
    {
      assert es[..k + 1][..k] == es[..k];
      var e := es[k];
      if e.Folder? {
        var visible := CountVisible(e.entries);
        if visible == 0 {
          removed := removed + 1;
        } else {
          var below, count := SweepFolder(e.entries);
          kept := kept + [Folder(e.name, below)];
          removed := removed + count;
        }
      } else {
        kept := kept + [e];
      }
    }
    assert es[..|es|] == es;
  }

  /** `cleanupEmptyFolders` on the tree `top` at `Incoming/`: the top folder
      itself is never checked. Returns the tree left and the number of
      folders removed. */
  method CleanupEmptyFolders(top: Node) returns (after: Node, removed: nat)
    ensures after == Sweep(top)
    ensures removed == if top.Folder? then RemovedIn(top.entries) else 0
  {
    after, removed := top, 0;
    if top.Folder? {
      var kept, count := SweepFolder(top.entries);
      after := Folder(top.name, kept);
      removed := count;
    }
  }

  /** Exactly the empty folders among the entries are dropped: every other
      entry stays, swept, in its place in the order. */
  lemma {:induction false} SweepDropsOnlyEmpty(es: seq<Node>)
    ensures forall i :: 0 <= i < |es| && !Empty(es[i]) ==> Sweep(es[i]) in SweepEntries(es)
    ensures forall x :: x in SweepEntries(es) ==> exists i :: 0 <= i < |es| && !Empty(es[i]) && x == Sweep(es[i])
    ensures |SweepEntries(es)| <= |es|
  {
    if es != [] {
      var prefix := es[..|es| - 1];
      SweepDropsOnlyEmpty(prefix);
      assert forall i :: 0 <= i < |prefix| ==> prefix[i] == es[i];
    }
  }

  /** A folder whose entries are all hidden holds no file reached through
      visible names. */
  lemma EmptyHasNoVisibleFiles(path: string, n: Node)
    requires Empty(n)
    ensures VisibleFiles(path, n) == {}
  {
    if !Hidden(n.name) {
      VisibleZero(n.entries);
      AllHiddenNoVisibleFiles(path, n.entries);
    }
  }

  lemma {:induction false} AllHiddenNoVisibleFiles(dir: string, es: seq<Node>)
    requires forall i :: 0 <= i < |es| ==> Hidden(es[i].name)
    ensures VisibleFilesIn(dir, es) == {}
  {
    if es != [] {
      var prefix := es[..|es| - 1];
      assert forall i :: 0 <= i < |prefix| ==> prefix[i] == es[i];
      AllHiddenNoVisibleFiles(dir, prefix);
    }
  }

  /** The sweep never removes a file reached through visible names: such a
      file makes each folder on its way non-empty. */
  lemma {:induction false} SweepKeepsVisibleFiles(path: string, n: Node)
    ensures VisibleFiles(path, n) <= Files(path, Sweep(n))
    decreases n
  {
    if n.Folder? && !Hidden(n.name) {
      SweepEntriesKeepsVisibleFiles(path, n.entries);
    }
  }

  lemma {:induction false} SweepEntriesKeepsVisibleFiles(dir: string, es: seq<Node>)
    ensures VisibleFilesIn(dir, es) <= FilesIn(dir, SweepEntries(es))
    decreases es
  {
    if es != [] {
      var prefix := es[..|es| - 1];
      var e := es[|es| - 1];
      var p := Join(dir, e.name);
      SweepEntriesKeepsVisibleFiles(dir, prefix);
      if Empty(e) {
        EmptyHasNoVisibleFiles(p, e);
      } else {
        SweepKeepsVisibleFiles(p, e);
        assert Sweep(e).name == e.name;
      }
    }
  }

  /** Every file discovery would collect survives the cleanup. */
  lemma FoundSurvivesCleanup(incoming: string, top: Node)
    ensures forall p :: p in Found(incoming, top) ==> p in Files(incoming, Sweep(top))
  {
    FoundAreVisibleMedia(incoming, top);
    SweepKeepsVisibleFiles(incoming, top);
  }

  /** The walk checks a folder before its entries: a folder whose only entry
      is an empty folder loses that entry but is itself kept by this run,
      and removed by the next one. */
  lemma CheckedBeforeDescending()
    ensures SweepEntries([Folder("a", [Folder("b", [])])]) == [Folder("a", [])]
    ensures RemovedIn([Folder("a", [Folder("b", [])])]) == 1
    ensures SweepEntries([Folder("a", [])]) == [] && RemovedIn([Folder("a", [])]) == 1
  {
    var b: Node := Folder("b", []);
    var a: Node := Folder("a", [b]);
    assert [a][..0] == [] && [b][..0] == [];
    assert Visible([b]) == 1;
    assert Empty(b) && SweepEntries([b]) == [];
    assert Sweep(a) == Folder("a", []);
  }
}
