/** The manifest update of `updateManifest` (main.go:451-553): the rows of
    the existing CSV file keyed by their relative path, the records of the
    files just organized added under keys not yet present, and the whole
    written back header first and sorted by key. The CSV encoding is not
    modelled: a file is the sequence of its records, each a sequence of
    fields. */
module Manifest {
  import opened Options
  import opened Text
  import opened Paths
  import opened Calendar
  import opened Organizer

  type Row = seq<string>

  /** The header of a new manifest (main.go:481-494). */
  const DefaultHeaders: Row := ["filename", "relative_path", "source_folder", "file_size_bytes",
                                "file_size_mb", "file_modified", "capture_date", "camera_make",
                                "camera_model", "file_hash", "extension", "organized_date"]

  // ---------------------------------------------------------------------------
  // Reading the existing manifest
  // ---------------------------------------------------------------------------

  /** What `csv.Reader.ReadAll` hands back for a file whose records parse to
      `parsed`: the first record fixes the number of fields, a record with
      another number makes ReadAll fail, and the error is ignored, so the
      code then sees no records at all. */
  function Readable(parsed: seq<Row>): seq<Row> {
    if forall k :: 0 <= k < |parsed| ==> |parsed[k]| == |parsed[0]| then parsed else []
  }

  /** The records the update starts from: none when the manifest cannot be
      opened (`file` is None), otherwise what ReadAll returns. */
  function Records(file: Option<seq<Row>>): seq<Row> {
    if file.Some? then Readable(file.value) else []
  }

  /** The `existing` map built from the records after the header: keyed by
      column 1 (`relative_path`), rows with fewer than two fields dropped, a
      later row with the same key replacing an earlier one. */
  function IndexRows(rows: seq<Row>): (m: map<string, Row>)
    ensures Keyed(m)
  {
    if rows == [] then map[]
    else
      var last := rows[|rows| - 1];
      var m := IndexRows(rows[..|rows| - 1]);
      if |last| > 1 then m[last[1] := last] else m
  }

  /** Every row is stored under its own `relative_path` column. */
  ghost predicate Keyed(m: map<string, Row>) {
    forall k :: k in m ==> |m[k]| > 1 && m[k][1] == k
  }

  /** A key is present exactly when some row of two or more fields has it. */
  lemma {:induction false} IndexRowsKeys(rows: seq<Row>, k: string)
    ensures k in IndexRows(rows) <==> exists i :: 0 <= i < |rows| && |rows[i]| > 1 && rows[i][1] == k
  {
    if rows != [] {
      var prefix := rows[..|rows| - 1];
      IndexRowsKeys(prefix, k);
      assert forall i :: 0 <= i < |prefix| ==> prefix[i] == rows[i];
    }
  }

  /** The row kept for a key is the last row that has it. */
  lemma {:induction false} IndexRowsLastWins(rows: seq<Row>, i: nat)
    requires i < |rows| && |rows[i]| > 1
    requires forall j :: i < j < |rows| ==> !(|rows[j]| > 1 && rows[j][1] == rows[i][1])
    ensures rows[i][1] in IndexRows(rows) && IndexRows(rows)[rows[i][1]] == rows[i]
  {
    var prefix := rows[..|rows| - 1];
    if i < |rows| - 1 {
      assert prefix[i] == rows[i];
      IndexRowsLastWins(prefix, i);
    }
  }

  /** The rows of the manifest by key: those after the header. */
  function Existing(records: seq<Row>): map<string, Row> {
    if records == [] then map[] else IndexRows(records[1..])
  }

  /** The loop over `records[1:]` (main.go:469-476). */
  method ReadExisting(records: seq<Row>) returns (headers: Row, existing: map<string, Row>)
    ensures headers == if records == [] then [] else records[0]
    ensures existing == Existing(records)
  {
    headers := [];
    existing := map[];
    if |records| > 0 {
      headers := records[0];
      var j := 1;
      while j < |records|
        invariant 1 <= j <= |records|
        invariant existing == IndexRows(records[1..j])
      {
        var row := records[j];
        assert records[1..j + 1][..j - 1] == records[1..j];
        if |row| > 1 {
          existing := existing[row[1] := row];
        }
        j := j + 1;
      }
      assert records[1..j] == records[1..];
    }
  }

  /** The header written: the file's own, or the default one when the file
      had none (main.go:479-495). */
  function Headers(records: seq<Row>): (h: Row)
    ensures h != []
    ensures records != [] && records[0] != [] ==> h == records[0]
    ensures records == [] || records[0] == [] ==> h == DefaultHeaders
  {
    if records == [] || records[0] == [] then DefaultHeaders else records[0]
  }

  // ---------------------------------------------------------------------------
  // The rows of new records
  // ---------------------------------------------------------------------------

  /** `fmt.Sprintf("%.2f", float64(size)/(1024*1024))` in hundredths: the
      quotient is exact in binary for sizes below 2^53, and the rendering
      rounds it to the nearest hundredth, a tie to the even one. */
  function Cents(size: nat): nat {
    var q := size * 100 / 1048576;
    var rem := size * 100 % 1048576;
    if 2 * rem > 1048576 || (2 * rem == 1048576 && q % 2 == 1) then q + 1 else q
  }

  /** The hundredths are the nearest to the exact number of megabytes. */
  lemma CentsNearest(size: nat)
    ensures -524288 <= Cents(size) * 1048576 - size * 100 <= 524288
  {
  }

  function FormatMb(size: nat): string {
    Itoa(Cents(size) / 100) + "." + Pad2(Cents(size) % 100)
  }

  /** The manifest key of a record: its destination relative to the
      library root. */
  function Key(root: string, fi: FileInfo): string {
    RelPath(root, fi.destPath)
  }

  /** A row of the twelve manifest columns, the camera columns left empty
      (main.go:509-521). */
  function Cells(name: string, relPath: string, folder: string, bytes: string, mb: string, modified: string,
                 captured: string, hash: string, ext: string, organizedAt: string): Row {
    [name, relPath, folder, bytes, mb, modified, captured, "", "", hash, ext, organizedAt]
  }

  lemma CellsColumns(name: string, relPath: string, folder: string, bytes: string, mb: string, modified: string,
                     captured: string, hash: string, ext: string, organizedAt: string)
    ensures var r := Cells(name, relPath, folder, bytes, mb, modified, captured, hash, ext, organizedAt);
      |r| == 12 && r[1] == relPath && r[9] == hash
  {
  }

  /** The row written for a new record: base name, key, the first folder of
      the source under `Incoming/`, size in bytes and megabytes,
      modification and capture stamps, hash, lower-cased extension and the
      time of organizing, `clock`. */
  function NewRow(root: string, fi: FileInfo, clock: Instant): Row {
    Cells(Base(fi.destPath), Key(root, fi), FirstComponent(RelPath(Incoming(root), fi.srcPath)),
          Itoa(fi.size), FormatMb(fi.size), FormatStamp(fi.modTime, '-'), FormatStamp(fi.captureDate, ':'),
          fi.hash, ToLower(Ext(fi.destPath)), FormatStamp(clock, '-'))
  }

  /** The twelve default columns include `relative_path` at index 1 and
      `file_hash` at index 9. */
  lemma DefaultHeaderColumns()
    ensures |DefaultHeaders| == 12
    ensures DefaultHeaders[1] == "relative_path" && DefaultHeaders[9] == "file_hash"
  {
  }

  /** A new row has a field for each default column, its key sits in the
      `relative_path` column and its hash in the `file_hash` column. */
  lemma NewRowColumns(root: string, fi: FileInfo, clock: Instant)
    ensures |NewRow(root, fi, clock)| == 12
    ensures NewRow(root, fi, clock)[1] == Key(root, fi)
    ensures NewRow(root, fi, clock)[9] == fi.hash
  {
    CellsColumns(Base(fi.destPath), Key(root, fi), FirstComponent(RelPath(Incoming(root), fi.srcPath)),
                 Itoa(fi.size), FormatMb(fi.size), FormatStamp(fi.modTime, '-'), FormatStamp(fi.captureDate, ':'),
                 fi.hash, ToLower(Ext(fi.destPath)), FormatStamp(clock, '-'));
  }

  /** A record as the merge sees it: the key it goes under and the row it
      would add. */
  datatype Entry = Entry(key: string, row: Row)

  function EntryOf(root: string, fi: FileInfo, clock: Instant): Entry {
    Entry(Key(root, fi), NewRow(root, fi, clock))
  }

  /** The entries of the organized records, in order. */
  function Entries(root: string, organized: seq<FileInfo>, clock: Instant): (es: seq<Entry>)
    ensures |es| == |organized|
  {
    seq(|organized|, i requires 0 <= i < |organized| => EntryOf(root, organized[i], clock))
  }

  /** The entry at each position is the one of the record there. */
  lemma EntriesAt(root: string, organized: seq<FileInfo>, clock: Instant, i: nat)
    requires i < |organized|
    ensures Entries(root, organized, clock)[i] == EntryOf(root, organized[i], clock)
  {
  }

  /** Every entry is a row of the twelve default columns with its key in
      the `relative_path` column; its key does not depend on the time of
      organizing. */
  lemma EntriesShape(root: string, organized: seq<FileInfo>, clock: Instant)
    ensures var es := Entries(root, organized, clock);
      forall i :: 0 <= i < |es| ==>
        |es[i].row| == 12 && es[i].row[1] == es[i].key && es[i].key == Key(root, organized[i])
        && es[i].row[9] == organized[i].hash
  {
    var es := Entries(root, organized, clock);
    forall i | 0 <= i < |es|
      ensures |es[i].row| == 12 && es[i].row[1] == es[i].key && es[i].key == Key(root, organized[i])
              && es[i].row[9] == organized[i].hash
    {
      EntriesAt(root, organized, clock, i);
      NewRowColumns(root, organized[i], clock);
    }
  }

  // ---------------------------------------------------------------------------
  // Merging
  // ---------------------------------------------------------------------------

  /** `existing` after the loop over the records (main.go:497-524): an entry
      whose key is present is skipped, otherwise its row is added. */
  function Merged(existing: map<string, Row>, es: seq<Entry>): map<string, Row>
  {
    if es == [] then existing
    else
      Insert(Merged(existing, es[..|es| - 1]), es[|es| - 1])
  }

  /** The merge of one entry. */
  function Insert(m: map<string, Row>, e: Entry): map<string, Row> {
    if e.key in m then m else m[e.key := e.row]
  }

  /** Rows already in the manifest are never overwritten or dropped. */
  lemma {:induction false} MergedKeepsExisting(existing: map<string, Row>, es: seq<Entry>, k: string)
    requires k in existing
    ensures k in Merged(existing, es) && Merged(existing, es)[k] == existing[k]
  {
    if es != [] {
      MergedKeepsExisting(existing, es[..|es| - 1], k);
    }
  }

  /** After the merge the keys are the old keys and the keys of the new
      entries, and nothing else. */
  lemma {:induction false} MergedKeys(existing: map<string, Row>, es: seq<Entry>, k: string)
    ensures k in Merged(existing, es) <==> k in existing || exists i :: 0 <= i < |es| && es[i].key == k
  {
    if es != [] {
      var prefix := es[..|es| - 1];
      MergedKeys(existing, prefix, k);
      assert forall i :: 0 <= i < |prefix| ==> prefix[i] == es[i];
    }
  }

  /** A key that is new gets the row of the first entry that has it; a
      repeat later in the same batch does not replace it. */
  lemma {:induction false} MergedFirstWins(existing: map<string, Row>, es: seq<Entry>, i: nat)
    requires i < |es| && es[i].key !in existing
    requires forall j :: 0 <= j < i ==> es[j].key != es[i].key
    ensures es[i].key in Merged(existing, es) && Merged(existing, es)[es[i].key] == es[i].row
  {
    var prefix := es[..|es| - 1];
    if i < |es| - 1 {
      assert prefix[i] == es[i];
      assert forall j :: 0 <= j < i ==> prefix[j] == es[j];
      MergedFirstWins(existing, prefix, i);
    } else {
      MergedKeys(existing, prefix, es[i].key);
      assert forall j :: 0 <= j < |prefix| ==> prefix[j] == es[j];
    }
  }

  /** Merging entries whose keys are all present changes nothing. */
  lemma {:induction false} MergedPresent(existing: map<string, Row>, es: seq<Entry>)
    requires forall i :: 0 <= i < |es| ==> es[i].key in existing
    ensures Merged(existing, es) == existing
  {
    if es != [] {
      MergedPresent(existing, es[..|es| - 1]);
    }
  }

  /** Merging the same keys a second time, whatever rows they would bring,
      changes nothing. */
  lemma MergedIdempotent(existing: map<string, Row>, es: seq<Entry>, again: seq<Entry>)
    requires |again| == |es| && forall i :: 0 <= i < |es| ==> again[i].key == es[i].key
    ensures Merged(Merged(existing, es), again) == Merged(existing, es)
  {
    var once := Merged(existing, es);
    forall i | 0 <= i < |again|
      ensures again[i].key in once
    {
      MergedKeys(existing, es, es[i].key);
    }
    MergedPresent(once, again);
  }

  /** Entries whose rows carry their key in column 1. */
  ghost predicate EntriesKeyed(es: seq<Entry>) {
    forall i :: 0 <= i < |es| ==> |es[i].row| > 1 && es[i].row[1] == es[i].key
  }

  /** The merge keeps every row under its own key. */
  lemma {:induction false} MergedKeyed(existing: map<string, Row>, es: seq<Entry>)
    requires Keyed(existing) && EntriesKeyed(es)
    ensures Keyed(Merged(existing, es))
  {
    if es != [] {
      var prefix := es[..|es| - 1];
      assert forall i :: 0 <= i < |prefix| ==> prefix[i] == es[i];
      MergedKeyed(existing, prefix);
    }
  }

  /** The merge adds only rows of the entries' width. */
  lemma {:induction false} MergedLengths(existing: map<string, Row>, es: seq<Entry>, width: nat)
    requires forall k :: k in existing ==> |existing[k]| == width
    requires forall i :: 0 <= i < |es| ==> |es[i].row| == width
    ensures forall k :: k in Merged(existing, es) ==> |Merged(existing, es)[k]| == width
  {
    if es != [] {
      var prefix := es[..|es| - 1];
      assert forall i :: 0 <= i < |prefix| ==> prefix[i] == es[i];
      MergedLengths(existing, prefix, width);
    }
  }

  /** The loop over `organized`: `newCount` is the number of keys the merge
      added, so a key repeated in the batch counts once and a key already
      in the manifest not at all. */
  method AddRecords(existing: map<string, Row>, root: string, organized: seq<FileInfo>, clock: Instant)
    returns (merged: map<string, Row>, newCount: nat)
    ensures merged == Merged(existing, Entries(root, organized, clock))
    ensures newCount == |merged.Keys - existing.Keys|
  {
    ghost var es := Entries(root, organized, clock);
    merged := existing;
    newCount := 0;
    for i := 0 to |organized|
      invariant merged == Merged(existing, es[..i])
      invariant existing.Keys <= merged.Keys
      invariant newCount == |merged.Keys - existing.Keys|
    {
      EntriesAt(root, organized, clock, i);
      MergedStep(existing, es, i);
      merged, newCount := AddRecord(existing, merged, newCount, root, organized[i], clock);
    }
    assert es[..|organized|] == es;
  }

  /** One iteration: the record's row goes in under its key unless the key
      is present, and `newCount` grows with it. */
  method AddRecord(existing: map<string, Row>, merged: map<string, Row>, newCount: nat,
                   root: string, fi: FileInfo, clock: Instant)
    returns (merged': map<string, Row>, newCount': nat)
    requires existing.Keys <= merged.Keys && newCount == |merged.Keys - existing.Keys|
    ensures merged' == Insert(merged, EntryOf(root, fi, clock))
    ensures existing.Keys <= merged'.Keys && newCount' == |merged'.Keys - existing.Keys|
  {
    merged', newCount' := merged, newCount;
    var relPath := RelPath(root, fi.destPath);
    if relPath !in merged {
      var row := NewRow(root, fi, clock);
      AddedKeyCounts(existing, merged, relPath, row);
      merged' := merged[relPath := row];
      newCount' := newCount + 1;
    }
  }

  /** Adding an absent key adds one to the keys not in `existing`. */
  lemma AddedKeyCounts(existing: map<string, Row>, m: map<string, Row>, k: string, row: Row)
    requires existing.Keys <= m.Keys && k !in m
    ensures existing.Keys <= m[k := row].Keys
    ensures |m[k := row].Keys - existing.Keys| == |m.Keys - existing.Keys| + 1
  {
    assert m[k := row].Keys - existing.Keys == (m.Keys - existing.Keys) + {k};
  }

  /** One more entry: added when its key is absent, skipped otherwise. */
  lemma MergedStep(existing: map<string, Row>, es: seq<Entry>, i: nat)
    requires i < |es|
    ensures Merged(existing, es[..i + 1]) == Insert(Merged(existing, es[..i]), es[i])
  {
    assert es[..i + 1][..i] == es[..i];
  }

  // ---------------------------------------------------------------------------
  // Writing, sorted by key
  // ---------------------------------------------------------------------------

  /** Strictly ascending in Go's string order: sorted and without repeats. */
  predicate StrictlySorted(s: seq<string>) {
    forall i, j :: 0 <= i < j < |s| ==> StrLess(s[i], s[j])
  }

  predicate Distinct(s: seq<string>) {
    forall i, j :: 0 <= i < j < |s| ==> s[i] != s[j]
  }

  /** Two strictly sorted sequences with the same elements are equal: the
      written order does not depend on the order in which the map hands
      out its keys. */
  lemma {:induction false} StrictlySortedUnique(s: seq<string>, t: seq<string>)
    requires StrictlySorted(s) && StrictlySorted(t)
    requires forall x :: x in s <==> x in t
    ensures s == t
    decreases |s|
  {
    assert s != [] ==> s[0] in t;
    assert t != [] ==> t[0] in s;
    if s != [] && t != [] {
      var a :| 0 <= a < |s| && s[a] == t[0];
      var b :| 0 <= b < |t| && t[b] == s[0];
      if a > 0 {
        StrLessAsymmetric(s[0], t[0]);
      }
      assert s[0] == t[0];
      forall x
        ensures x in s[1..] <==> x in t[1..]
      {
        if x in s[1..] {
          var a :| 1 <= a < |s| && s[a] == x;
          StrLessIrreflexive(x);
          assert x != s[0];
          assert x in t;
        }
        if x in t[1..] {
          var b :| 1 <= b < |t| && t[b] == x;
          StrLessIrreflexive(x);
          assert x != t[0];
          assert x in s;
        }
      }
      StrictlySortedUnique(s[1..], t[1..]);
      assert s == [s[0]] + s[1..] && t == [t[0]] + t[1..];
    }
  }

  /** A strictly sorted sequence has no repeats. */
  lemma SortedDistinct(s: seq<string>)
    requires StrictlySorted(s)
    ensures Distinct(s)
  {
    forall i, j | 0 <= i < j < |s|
      ensures s[i] != s[j]
    {
      StrLessIrreflexive(s[i]);
    }
  }

  /** `for p := range existing { paths = append(paths, p) }`: the keys in
      whatever order the map yields them. */
  method CollectKeys(m: map<string, Row>) returns (paths: seq<string>)
    ensures Distinct(paths)
    ensures forall p :: p in paths <==> p in m
  {
    paths := [];
    var rest := m.Keys;
    while rest != {}
      invariant Distinct(paths)
      invariant forall p :: p in m <==> p in rest || p in paths
      invariant forall p :: p in rest ==> p !in paths
      decreases |rest|
    {
      var p :| p in rest;
      paths := paths + [p];
      rest := rest - {p};
    }
  }

  /** One insertion step of the sort: `x` goes after every smaller key. */
  method InsertSorted(s: seq<string>, x: string) returns (r: seq<string>)
    requires StrictlySorted(s) && x !in s
    ensures StrictlySorted(r)
    ensures forall p :: p in r <==> p in s || p == x
  {
    var j := 0;
    while j < |s| && StrLess(s[j], x)
      invariant 0 <= j <= |s|
      invariant forall k :: 0 <= k < j ==> StrLess(s[k], x)
    {
      j := j + 1;
    }
    InsertAt(s, x, j);
    r := s[..j] + [x] + s[j..];
  }

  /** Putting `x` after exactly the keys smaller than it keeps the sequence
      strictly sorted. */
  lemma InsertAt(s: seq<string>, x: string, j: nat)
    requires StrictlySorted(s) && x !in s && j <= |s|
    requires forall k :: 0 <= k < j ==> StrLess(s[k], x)
    requires j < |s| ==> !StrLess(s[j], x)
    ensures StrictlySorted(s[..j] + [x] + s[j..])
    ensures forall p :: p in s[..j] + [x] + s[j..] <==> p in s || p == x
  {
    var r := s[..j] + [x] + s[j..];
    assert forall k :: 0 <= k < j ==> r[k] == s[k];
    assert r[j] == x;
    assert forall k :: j < k < |r| ==> r[k] == s[k - 1];
    if j < |s| {
      StrLessTotal(s[j], x);
    }
    forall k | j <= k < |s|
      ensures StrLess(x, s[k])
    {
      if k > j {
        StrLessTransitive(x, s[j], s[k]);
      }
    }
    forall a, b | 0 <= a < b < |r|
      ensures StrLess(r[a], r[b])
    {
      if b < j {
        assert StrLess(s[a], s[b]);
      } else if a < j && b == j {
        assert StrLess(s[a], x);
      } else if a < j {
        assert StrLess(s[a], s[b - 1]);
      } else if a == j {
        assert StrLess(x, s[b - 1]);
      } else {
        assert StrLess(s[a - 1], s[b - 1]);
      }
    }
    assert s == s[..j] + s[j..];
  }

  /** `sort.Strings(paths)` on the distinct keys. */
  method SortPaths(paths: seq<string>) returns (sorted: seq<string>)
    requires Distinct(paths)
    ensures StrictlySorted(sorted)
    ensures forall p :: p in sorted <==> p in paths
  {
    sorted := [];
    for i := 0 to |paths|
      invariant StrictlySorted(sorted)
      invariant forall p :: p in sorted <==> p in paths[..i]
    {
      assert paths[..i + 1] == paths[..i] + [paths[i]];
      sorted := InsertSorted(sorted, paths[i]);
    }
    assert paths[..|paths|] == paths;
  }

  /** The smallest key of a non-empty set. */
  ghost function Least(keys: set<string>): (m: string)
    requires keys != {}
    ensures m in keys
    ensures forall x :: x in keys && x != m ==> StrLess(m, x)
    decreases |keys|
  {
    var x :| x in keys;
    if keys == {x} then x
    else
      var m := Least(keys - {x});
      LeastStep(keys, x, m);
      if StrLess(x, m) then x else m
  }

  lemma LeastStep(keys: set<string>, x: string, m: string)
    requires x in keys && m in keys - {x}
    requires forall y :: y in keys - {x} && y != m ==> StrLess(m, y)
    ensures StrLess(x, m) ==> forall y :: y in keys && y != x ==> StrLess(x, y)
    ensures !StrLess(x, m) ==> forall y :: y in keys && y != m ==> StrLess(m, y)
  {
    if StrLess(x, m) {
      forall y | y in keys && y != x
        ensures StrLess(x, y)
      {
        if y != m {
          StrLessTransitive(x, m, y);
        }
      }
    } else {
      StrLessTotal(x, m);
    }
  }

  /** The keys of a set in ascending order. */
  ghost function SortedKeys(keys: set<string>): (s: seq<string>)
    ensures StrictlySorted(s)
    ensures forall p :: p in s <==> p in keys
    decreases |keys|
  {
    if keys == {} then []
    else
      var m := Least(keys);
      var rest := SortedKeys(keys - {m});
      forall k | 0 <= k < |rest|
        ensures StrLess(m, rest[k])
      {
        assert rest[k] in keys - {m};
      }
      [m] + rest
  }

  /** The rows of `m` in the order of `paths`. */
  function RowsOf(m: map<string, Row>, paths: seq<string>): (rows: seq<Row>)
    requires forall p :: p in paths ==> p in m
    ensures |rows| == |paths|
    ensures forall k :: 0 <= k < |paths| ==> rows[k] == m[paths[k]]
  {
    seq(|paths|, k requires 0 <= k < |paths| => m[paths[k]])
  }

  /** The header, then one `writer.Write(existing[p])` per key. */
  method WriteRows(headers: Row, m: map<string, Row>, paths: seq<string>) returns (out: seq<Row>)
    requires forall p :: p in paths ==> p in m
    ensures out == [headers] + RowsOf(m, paths)
  {
    out := [headers];
    for k := 0 to |paths|
      invariant out == [headers] + RowsOf(m, paths[..k])
    {
      out := out + [m[paths[k]]];
    }
    assert paths[..|paths|] == paths;
  }

  // ---------------------------------------------------------------------------
  // The whole update
  // ---------------------------------------------------------------------------

  /** The merged rows by key, before writing. */
  function MergedRows(file: Option<seq<Row>>, root: string, organized: seq<FileInfo>, clock: Instant): map<string, Row> {
    Merged(Existing(Records(file)), Entries(root, organized, clock))
  }

  /** The file written: the header, then every merged row in ascending key
      order. */
  ghost function Manifest(file: Option<seq<Row>>, root: string, organized: seq<FileInfo>, clock: Instant): seq<Row> {
    var m := MergedRows(file, root, organized, clock);
    [Headers(Records(file))] + RowsOf(m, SortedKeys(m.Keys))
  }

  /** The number of entries the update reports as added. */
  function NewCount(file: Option<seq<Row>>, root: string, organized: seq<FileInfo>, clock: Instant): nat {
    |MergedRows(file, root, organized, clock).Keys - Existing(Records(file)).Keys|
  }

  datatype Outcome = Failed | Written(rows: seq<Row>, newCount: nat)

  /** `updateManifest`. `file` is the current manifest (None when it cannot
      be opened), `mkdirOk` and `createOk` whether creating its directory
      and the file succeed, and `clock` the time of organizing. A failure
      returns the error and writes nothing. */
  method UpdateManifest(file: Option<seq<Row>>, root: string, organized: seq<FileInfo>, clock: Instant,
                        mkdirOk: bool, createOk: bool) returns (out: Outcome)
    ensures out.Failed? <==> !mkdirOk || !createOk
    ensures out.Written? ==> out == Written(Manifest(file, root, organized, clock), NewCount(file, root, organized, clock))
  {
    if !mkdirOk {
      return Failed;
    }
    var records := Records(file);
    var headers, existing := ReadExisting(records);
    if |headers| == 0 {
      headers := DefaultHeaders;
    }
    var merged, newCount := AddRecords(existing, root, organized, clock);
    if !createOk {
      return Failed;
    }
    var paths := CollectKeys(merged);
    paths := SortPaths(paths);
    StrictlySortedUnique(paths, SortedKeys(merged.Keys));
    var rows := WriteRows(headers, merged, paths);
    out := Written(rows, newCount);
  }

  // ---------------------------------------------------------------------------
  // Properties of the written manifest
  // ---------------------------------------------------------------------------

  /** Reading back rows written in an order without repeats, each row under
      its own key, gives back the rows of those keys. */
  lemma IndexRowsOfDistinct(m: map<string, Row>, paths: seq<string>)
    requires Keyed(m) && Distinct(paths)
    requires forall p :: p in paths ==> p in m
    ensures IndexRows(RowsOf(m, paths)) == map p | p in paths :: m[p]
  {
    var rows := RowsOf(m, paths);
    var r := IndexRows(rows);
    forall k
      ensures k in r <==> k in paths
    {
      IndexRowsKeys(rows, k);
      if k in paths {
        var i :| 0 <= i < |paths| && paths[i] == k;
        assert |rows[i]| > 1 && rows[i][1] == k;
      }
    }
    forall k | k in r
      ensures r[k] == m[k]
    {
      var i :| 0 <= i < |paths| && paths[i] == k;
      assert forall j :: i < j < |rows| ==> rows[j][1] == paths[j] != k;
      IndexRowsLastWins(rows, i);
    }
  }

  /** A strictly sorted sequence has as many elements as the set of them. */
  lemma {:induction false} DistinctCard(s: seq<string>, keys: set<string>)
    requires StrictlySorted(s)
    requires forall p :: p in s <==> p in keys
    ensures |s| == |keys|
    decreases |s|
  {
    if s != [] {
      StrLessIrreflexive(s[0]);
      assert forall p :: p in s[1..] <==> p in keys - {s[0]} by {
        forall p
          ensures p in s[1..] <==> p in keys - {s[0]}
        {
          if p in s[1..] {
            var a :| 1 <= a < |s| && s[a] == p;
            assert StrLess(s[0], s[a]);
          }
          if p in s && p != s[0] {
            var a :| 0 <= a < |s| && s[a] == p;
            assert s[1..][a - 1] == p;
          }
        }
      }
      DistinctCard(s[1..], keys - {s[0]});
    }
  }

  /** The header comes first, then every key once, in ascending order, each
      row in its own key's place. */
  lemma ManifestShape(file: Option<seq<Row>>, root: string, organized: seq<FileInfo>, clock: Instant)
    ensures var out := Manifest(file, root, organized, clock);
      var m := MergedRows(file, root, organized, clock);
      && |out| == |m.Keys| + 1
      && out[0] == Headers(Records(file))
      && (forall i :: 1 <= i < |out| ==> |out[i]| > 1 && out[i][1] in m && out[i] == m[out[i][1]])
      && (forall i, j :: 1 <= i < j < |out| ==> StrLess(out[i][1], out[j][1]))
      && (forall k :: k in m ==> exists i :: 1 <= i < |out| && out[i][1] == k)
  {
    MergedRowsKeyed(file, root, organized, clock);
    WrittenShape(Headers(Records(file)), MergedRows(file, root, organized, clock));
  }

  /** The shape of a header followed by the rows of a keyed map in key
      order. */
  lemma WrittenShape(headers: Row, m: map<string, Row>)
    requires Keyed(m)
    ensures var out := [headers] + RowsOf(m, SortedKeys(m.Keys));
      && |out| == |m.Keys| + 1
      && out[0] == headers
      && (forall i :: 1 <= i < |out| ==> |out[i]| > 1 && out[i][1] in m && out[i] == m[out[i][1]])
      && (forall i, j :: 1 <= i < j < |out| ==> StrLess(out[i][1], out[j][1]))
      && (forall k :: k in m ==> exists i :: 1 <= i < |out| && out[i][1] == k)
  {
    var ks := SortedKeys(m.Keys);
    RowsInOrder(headers, m, ks);
  }

  /** The same shape for any strictly ascending sequence of exactly the
      map's keys. */
  lemma RowsInOrder(headers: Row, m: map<string, Row>, ks: seq<string>)
    requires Keyed(m) && StrictlySorted(ks)
    requires forall p :: p in ks <==> p in m
    ensures var out := [headers] + RowsOf(m, ks);
      && |out| == |m.Keys| + 1
      && out[0] == headers
      && (forall i :: 1 <= i < |out| ==> |out[i]| > 1 && out[i][1] in m && out[i] == m[out[i][1]])
      && (forall i, j :: 1 <= i < j < |out| ==> StrLess(out[i][1], out[j][1]))
      && (forall k :: k in m ==> exists i :: 1 <= i < |out| && out[i][1] == k)
  {
    var out := [headers] + RowsOf(m, ks);
    DistinctCard(ks, m.Keys);
    assert forall i :: 1 <= i < |out| ==> out[i] == m[ks[i - 1]] && out[i][1] == ks[i - 1];
    forall k | k in m
      ensures exists i :: 1 <= i < |out| && out[i][1] == k
    {
      var a :| 0 <= a < |ks| && ks[a] == k;
      assert out[a + 1][1] == k;
    }
  }

  /** Every merged row sits under its own key. */
  lemma MergedRowsKeyed(file: Option<seq<Row>>, root: string, organized: seq<FileInfo>, clock: Instant)
    ensures Keyed(MergedRows(file, root, organized, clock))
  {
    EntriesShape(root, organized, clock);
    MergedKeyed(Existing(Records(file)), Entries(root, organized, clock));
  }

  /** Rows already in the manifest keep their content, and the keys after
      the update are the old keys plus the keys of the organized files. */
  lemma ExistingRowsKept(file: Option<seq<Row>>, root: string, organized: seq<FileInfo>, clock: Instant, k: string)
    ensures k in Existing(Records(file)) ==>
      k in MergedRows(file, root, organized, clock)
      && MergedRows(file, root, organized, clock)[k] == Existing(Records(file))[k]
    ensures k in MergedRows(file, root, organized, clock) <==>
      k in Existing(Records(file)) || exists i :: 0 <= i < |organized| && Key(root, organized[i]) == k
  {
    var es := Entries(root, organized, clock);
    EntriesShape(root, organized, clock);
    if k in Existing(Records(file)) {
      MergedKeepsExisting(Existing(Records(file)), es, k);
    }
    MergedKeys(Existing(Records(file)), es, k);
  }

  /** A new key gets the row built from the first organized file that has
      it. */
  lemma FirstRecordWins(file: Option<seq<Row>>, root: string, organized: seq<FileInfo>, clock: Instant, i: nat)
    requires i < |organized| && Key(root, organized[i]) !in Existing(Records(file))
    requires forall j :: 0 <= j < i ==> Key(root, organized[j]) != Key(root, organized[i])
    ensures Key(root, organized[i]) in MergedRows(file, root, organized, clock)
    ensures MergedRows(file, root, organized, clock)[Key(root, organized[i])] == NewRow(root, organized[i], clock)
  {
    var es := Entries(root, organized, clock);
    EntriesShape(root, organized, clock);
    EntriesAt(root, organized, clock, i);
    MergedFirstWins(Existing(Records(file)), es, i);
  }

  /** Every row of the existing index is one of the records read, so it has
      the header's number of fields. */
  lemma ExistingWidth(records: seq<Row>)
    requires records != [] && forall i :: 0 <= i < |records| ==> |records[i]| == |records[0]|
    ensures forall k :: k in Existing(records) ==> |Existing(records)[k]| == |records[0]| > 1
  {
    forall k | k in Existing(records)
      ensures |Existing(records)[k]| == |records[0]| > 1
    {
      IndexRowsFrom(records[1..], k);
      var i :| 0 <= i < |records[1..]| && Existing(records)[k] == records[1..][i];
      assert records[1..][i] == records[i + 1];
    }
  }

  /** Every row kept by the index is one of the rows read. */
  lemma {:induction false} IndexRowsFrom(rows: seq<Row>, k: string)
    requires k in IndexRows(rows)
    ensures exists i :: 0 <= i < |rows| && IndexRows(rows)[k] == rows[i]
  {
    var prefix := rows[..|rows| - 1];
    var last := rows[|rows| - 1];
    if !(|last| > 1 && last[1] == k) {
      IndexRowsFrom(prefix, k);
      var i :| 0 <= i < |prefix| && IndexRows(prefix)[k] == prefix[i];
      assert prefix[i] == rows[i];
    }
  }

  /** Every merged row has as many fields as the header, when the header has
      the twelve default columns. */
  lemma RowLengths(file: Option<seq<Row>>, root: string, organized: seq<FileInfo>, clock: Instant)
    requires |Headers(Records(file))| == 12
    ensures forall k :: k in MergedRows(file, root, organized, clock) ==>
      |MergedRows(file, root, organized, clock)[k]| == 12
  {
    var records := Records(file);
    if records != [] {
      assert forall i :: 0 <= i < |records| ==> |records[i]| == |records[0]|;
      ExistingWidth(records);
    }
    EntriesShape(root, organized, clock);
    MergedLengths(Existing(records), Entries(root, organized, clock), 12);
  }

  /** A file written as a header followed by the rows of a keyed map, all as
      wide as the header, reads back as that header and that map. */
  lemma ReadBack(headers: Row, m: map<string, Row>)
    requires headers != [] && Keyed(m)
    requires forall k :: k in m ==> |m[k]| == |headers|
    ensures var written := [headers] + RowsOf(m, SortedKeys(m.Keys));
      Records(Some(written)) == written && Headers(written) == headers && Existing(written) == m
  {
    ReadBackIn(headers, m, SortedKeys(m.Keys));
  }

  /** The same for any strictly ascending sequence of exactly the map's keys. */
  lemma ReadBackIn(headers: Row, m: map<string, Row>, ks: seq<string>)
    requires headers != [] && Keyed(m) && StrictlySorted(ks)
    requires forall p :: p in ks <==> p in m
    requires forall k :: k in m ==> |m[k]| == |headers|
    ensures var written := [headers] + RowsOf(m, ks);
      Records(Some(written)) == written && Headers(written) == headers && Existing(written) == m
  {
    var rows := RowsOf(m, ks);
    var written := [headers] + rows;
    assert Readable(written) == written by {
      assert forall i :: 0 <= i < |written| ==> |written[i]| == |headers|;
    }
    assert Existing(written) == IndexRows(rows) by {
      assert written[1..] == rows;
    }
    SortedDistinct(ks);
    IndexRowsOfDistinct(m, ks);
    AllKeys(m, ks);
  }

  /** Restricting a map to a sequence of all its keys gives the map. */
  lemma AllKeys(m: map<string, Row>, ks: seq<string>)
    requires forall p :: p in ks <==> p in m
    ensures (map p | p in ks :: m[p]) == m
  {
  }

  /** Running the update again on the file it wrote, with the same records
      and at any later time, rewrites the same file and adds nothing —
      provided the header has as many fields as the rows added, so that
      the written file reads back. */
  lemma UpdateIdempotent(file: Option<seq<Row>>, root: string, organized: seq<FileInfo>,
                         clock: Instant, clock': Instant)
    requires |Headers(Records(file))| == 12
    ensures var once := Manifest(file, root, organized, clock);
      && Manifest(Some(once), root, organized, clock') == once
      && NewCount(Some(once), root, organized, clock') == 0
  {
    var m := MergedRows(file, root, organized, clock);
    var once := Manifest(file, root, organized, clock);
    MergedRowsKeyed(file, root, organized, clock);
    RowLengths(file, root, organized, clock);
    ReadBack(Headers(Records(file)), m);
    EntriesShape(root, organized, clock);
    EntriesShape(root, organized, clock');
    MergedIdempotent(Existing(Records(file)), Entries(root, organized, clock), Entries(root, organized, clock'));
    assert MergedRows(Some(once), root, organized, clock') == m;
  }
}
