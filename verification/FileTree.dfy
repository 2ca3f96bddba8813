/**
 The managed data root as a directory tree, and the walk that picks the files a backup keeps.

 A directory lists its entries in the order of the walk's sorted scan.
 */
module FileTree {
  import opened Common
  import opened Paths

  /** `Special` is anything that is neither a plain file nor a plain directory: a link, a device. */
  datatype Node = File(content: bytes) | Dir(entries: seq<Entry>) | Special

  datatype Entry = Entry(name: string, node: Node)

  datatype FileAt = FileAt(path: Path, content: bytes)

  datatype WalkError = SpecialFile | VolatileNotDirectory | SidecarNotFile

  /** What a directory can be on disk. */
  predicate WellFormed(node: Node) {
    match node
    case Dir(entries) =>
      && (forall i :: 0 <= i < |entries| ==> Name(entries[i].name) && WellFormed(entries[i].node))
      && (forall i, j :: 0 <= i < j < |entries| ==> entries[i].name != entries[j].name)
    case _ => true
  }

  function Find(entries: seq<Entry>, name: string): (r: Option<Node>)
    ensures r.Some? ==> exists i :: 0 <= i < |entries| && entries[i] == Entry(name, r.value)
  {
    if entries == [] then None
    else if entries[0].name == name then
      assert entries[0] == Entry(name, entries[0].node);
      Some(entries[0].node)
    else
      var r := Find(entries[1..], name);
      assert r.Some? ==> exists i :: 0 <= i < |entries| && entries[i] == Entry(name, r.value) by {
        if r.Some? {
          var i :| 0 <= i < |entries[1..]| && entries[1..][i] == Entry(name, r.value);
          assert entries[i + 1] == Entry(name, r.value);
        }
      }
      r
  }

  /** The content of the plain file at a path. */
  function Lookup(node: Node, path: Path): Option<bytes> {
    if path == [] then (if node.File? then Some(node.content) else None)
    else if node.Dir? && Find(node.entries, path[0]).Some? then
      Lookup(Find(node.entries, path[0]).value, path[1..])
    else None
  }

  // ------------------------------------------------------------------ exclusions

  /** Trees that hold nothing durable. */
  predicate Volatile(path: Path) {
    path == ["logs"] || path == ["temporary"] || path == ["assets", ".staging"]
  }

  function WithSuffix(path: Path, suffix: string): Path
    requires path != []
  {
    path[..|path| - 1] + [Last(path) + suffix]
  }

  /** The database and its sidecars, when the database lies inside the data root. */
  predicate DatabaseFile(db: Option<Path>, path: Path) {
    db.Some? && db.value != [] &&
    (path == db.value || path == WithSuffix(db.value, "-wal") || path == WithSuffix(db.value, "-shm")
     || path == WithSuffix(db.value, "-journal"))
  }

  /** What the backup leaves out, said of a whole path. */
  predicate Excluded(db: Option<Path>, path: Path) {
    || DatabaseFile(db, path)
    || (|path| >= 1 && Volatile(path[..1]))
    || (|path| >= 2 && Volatile(path[..2]))
  }

  // ------------------------------------------------------------------------ walk

  /** `walk` below `_iter_managed_source_files`, one directory's entries in order. */
  function Walk(entries: seq<Entry>, relative: Path, db: Option<Path>): Result<seq<FileAt>, WalkError>
    decreases entries, 0
  {
    if entries == [] then Ok([])
    else
      var first := WalkEntry(entries[0], relative + [entries[0].name], db);
      if first.Err? then first
      else
        var rest := Walk(entries[1..], relative, db);
        if rest.Err? then rest else Ok(first.value + rest.value)
  }

  function WalkEntry(entry: Entry, child: Path, db: Option<Path>): Result<seq<FileAt>, WalkError>
    decreases entry, 1
  {
    if entry.node.Special? then Err(SpecialFile)
    else if Volatile(child) then (if entry.node.Dir? then Ok([]) else Err(VolatileNotDirectory))
    else if DatabaseFile(db, child) then (if entry.node.File? then Ok([]) else Err(SidecarNotFile))
    else if entry.node.File? then Ok([FileAt(child, entry.node.content)])
    else Walk(entry.node.entries, child, db)
  }

  function Managed(root: Node, db: Option<Path>): Result<seq<FileAt>, WalkError>
    requires root.Dir?
  {
    Walk(root.entries, [], db)
  }

  predicate Stops(db: Option<Path>, path: Path) {
    Volatile(path) || DatabaseFile(db, path)
  }

  /** The walk, standing at `relative`, gets to `relative + rest` without stopping on the way. */
  predicate Reached(db: Option<Path>, relative: Path, rest: Path)
    decreases |rest|
  {
    rest == [] ||
    (!Stops(db, relative + [rest[0]]) && Reached(db, relative + [rest[0]], rest[1..]))
  }

  lemma {:induction false} FoundIsEntry(entries: seq<Entry>, name: string)
    ensures Find(entries, name).None? <==> forall i :: 0 <= i < |entries| ==> entries[i].name != name
  {
    if entries != [] {
      FoundIsEntry(entries[1..], name);
      if Find(entries, name).None? {
        forall i | 0 <= i < |entries| ensures entries[i].name != name {
          if i > 0 { assert entries[i] == entries[1..][i - 1]; }
        }
      }
    }
  }

  /** What lies at a path, whatever it is. */
  function NodeAt(node: Node, path: Path): Option<Node> {
    if path == [] then Some(node)
    else if node.Dir? && Find(node.entries, path[0]).Some? then NodeAt(Find(node.entries, path[0]).value, path[1..])
    else None
  }

  lemma FindsEntry(entries: seq<Entry>, k: nat)
    requires WellFormed(Dir(entries)) && k < |entries|
    ensures Find(entries, entries[k].name) == Some(entries[k].node)
  {
    FoundIsEntry(entries, entries[k].name);
  }

  /** Everything below an entry carries the entry's path in front. */
  lemma {:induction false} WalkStaysBelow(entries: seq<Entry>, relative: Path, db: Option<Path>, f: FileAt)
    requires Walk(entries, relative, db).Ok? && f in Walk(entries, relative, db).value
    ensures |f.path| > |relative| && f.path[..|relative|] == relative
    ensures exists i :: 0 <= i < |entries| && entries[i].name == f.path[|relative|]
    decreases entries, 0
  {
    var child := relative + [entries[0].name];
    if f in WalkEntry(entries[0], child, db).value {
      EntryStaysBelow(entries[0], child, db, f);
      assert f.path[..|relative|] == f.path[..|child|][..|relative|] == relative;
      assert f.path[|relative|] == f.path[..|child|][|relative|] == entries[0].name;
    } else {
      WalkStaysBelow(entries[1..], relative, db, f);
      var i :| 0 <= i < |entries[1..]| && entries[1..][i].name == f.path[|relative|];
      assert entries[i + 1] == entries[1..][i];
    }
  }

  lemma {:induction false} EntryStaysBelow(entry: Entry, child: Path, db: Option<Path>, f: FileAt)
    requires WalkEntry(entry, child, db).Ok? && f in WalkEntry(entry, child, db).value
    ensures |f.path| >= |child| && f.path[..|child|] == child
    decreases entry, 1
  {
    if entry.node.Dir? {
      WalkStaysBelow(entry.node.entries, child, db, f);
    } else {
      assert f.path == child;
    }
  }

  /** The walk yields a file exactly when the tree holds it and nothing stops the walk on the way. */
  lemma {:induction false} WalkYields(entries: seq<Entry>, relative: Path, db: Option<Path>, rest: Path, content: bytes)
    requires WellFormed(Dir(entries)) && Walk(entries, relative, db).Ok? && rest != []
    ensures FileAt(relative + rest, content) in Walk(entries, relative, db).value
            <==> Lookup(Dir(entries), rest) == Some(content) && Reached(db, relative, rest)
    decreases entries, 0
  {
    var f := FileAt(relative + rest, content);
    assert f.path[|relative|] == rest[0] && f.path[..|relative|] == relative;
    if entries != [] {
      var child := relative + [entries[0].name];
      var first := WalkEntry(entries[0], child, db);
      if entries[0].name == rest[0] {
        assert f.path == child + rest[1..];
        EntryYields(entries[0], child, db, rest[1..], content);
        if f in Walk(entries[1..], relative, db).value {
          WalkStaysBelow(entries[1..], relative, db, f);
          assert false;
        }
      } else {
        WalkYields(entries[1..], relative, db, rest, content);
        if f in first.value {
          EntryStaysBelow(entries[0], child, db, f);
          assert false;
        }
      }
    }
  }

  lemma {:induction false} EntryYields(entry: Entry, child: Path, db: Option<Path>, rest: Path, content: bytes)
    requires WellFormed(entry.node) && child != [] && WalkEntry(entry, child, db).Ok?
    ensures FileAt(child + rest, content) in WalkEntry(entry, child, db).value
            <==> Lookup(entry.node, rest) == Some(content) && !Stops(db, child) && Reached(db, child, rest)
    decreases entry, 1
  {
    assert rest == [] ==> child + rest == child;
    assert rest != [] ==> |child + rest| > |child|;
    if !Stops(db, child) && entry.node.Dir? {
      if rest != [] {
        WalkYields(entry.node.entries, child, db, rest, content);
      } else if FileAt(child, content) in Walk(entry.node.entries, child, db).value {
        WalkStaysBelow(entry.node.entries, child, db, FileAt(child, content));
        assert false;
      }
    }
  }

  ghost predicate PathsDistinct(files: seq<FileAt>) {
    forall i, j :: 0 <= i < j < |files| ==> files[i].path != files[j].path
  }

  lemma {:induction false} WalkDistinct(entries: seq<Entry>, relative: Path, db: Option<Path>)
    requires WellFormed(Dir(entries)) && Walk(entries, relative, db).Ok?
    ensures PathsDistinct(Walk(entries, relative, db).value)
    decreases entries, 0
  {
    if entries != [] {
      var child := relative + [entries[0].name];
      var first, others := WalkEntry(entries[0], child, db).value, Walk(entries[1..], relative, db).value;
      if entries[0].node.Dir? && !Stops(db, child) { WalkDistinct(entries[0].node.entries, child, db); }
      WalkDistinct(entries[1..], relative, db);
      forall a, b | a in first && b in others ensures a.path != b.path {
        EntryStaysBelow(entries[0], child, db, a);
        WalkStaysBelow(entries[1..], relative, db, b);
        var i :| 0 <= i < |entries[1..]| && entries[1..][i].name == b.path[|relative|];
        assert entries[i + 1].name == b.path[|relative|];
        assert a.path[..|child|][|relative|] == a.path[|relative|];
      }
      var all := first + others;
      forall i, j | 0 <= i < j < |all| ensures all[i].path != all[j].path {
        if i < |first| <= j {
          assert all[i] in first && all[j] in others;
        }
      }
    }
  }

  lemma {:induction false} WalkPathsClean(entries: seq<Entry>, relative: Path, db: Option<Path>, f: FileAt)
    requires WellFormed(Dir(entries)) && Clean(relative)
    requires Walk(entries, relative, db).Ok? && f in Walk(entries, relative, db).value
    ensures f.path != [] && Clean(f.path)
    decreases entries, 0
  {
    var child := relative + [entries[0].name];
    if f in WalkEntry(entries[0], child, db).value {
      if entries[0].node.Dir? { WalkPathsClean(entries[0].node.entries, child, db, f); }
    } else {
      WalkPathsClean(entries[1..], relative, db, f);
    }
  }

  // --------------------------------------------------------------------- theorem

  lemma {:induction false} ReachedIsEveryPrefix(db: Option<Path>, relative: Path, rest: Path)
    ensures Reached(db, relative, rest) <==> forall n :: 0 < n <= |rest| ==> !Stops(db, relative + rest[..n])
    decreases |rest|
  {
    if rest != [] {
      var next := relative + [rest[0]];
      ReachedIsEveryPrefix(db, next, rest[1..]);
      forall n | 0 < n <= |rest| ensures relative + rest[..n] == next + rest[1..][..n - 1] {
        assert rest[..n] == [rest[0]] + rest[1..][..n - 1];
      }
      if Reached(db, relative, rest) {
        forall n | 0 < n <= |rest| ensures !Stops(db, relative + rest[..n]) {
          if n == 1 { assert relative + rest[..1] == next; } else { assert !Stops(db, next + rest[1..][..n - 1]); }
        }
      }
      if forall n :: 0 < n <= |rest| ==> !Stops(db, relative + rest[..n]) {
        assert !Stops(db, relative + rest[..1]) && relative + rest[..1] == next;
        forall m | 0 < m <= |rest[1..]| ensures !Stops(db, next + rest[1..][..m]) {
          assert !Stops(db, relative + rest[..m + 1]);
        }
      }
    }
  }

  lemma {:induction false} WalkOkAt(entries: seq<Entry>, relative: Path, db: Option<Path>, k: nat)
    requires k < |entries| && Walk(entries, relative, db).Ok?
    ensures WalkEntry(entries[k], relative + [entries[k].name], db).Ok?
  {
    if k > 0 { WalkOkAt(entries[1..], relative, db, k - 1); }
  }

  /** In a tree the walk accepts, no visited directory sits where the database or a sidecar is expected. */
  lemma {:induction false} NoDirectoryAtDatabase(entries: seq<Entry>, relative: Path, db: Option<Path>, rest: Path, n: nat)
    requires Walk(entries, relative, db).Ok?
    requires 0 < n < |rest| && Lookup(Dir(entries), rest).Some? && DatabaseFile(db, relative + rest[..n])
    ensures exists m :: 0 < m <= n && Volatile(relative + rest[..m])
    decreases n
  {
    hide WellFormed;
    var node := Find(entries, rest[0]).value;
    var k :| 0 <= k < |entries| && entries[k] == Entry(rest[0], node);
    WalkOkAt(entries, relative, db, k);
    var child := relative + [rest[0]];
    assert rest[..1] == [rest[0]] && relative + rest[..1] == child;
    if !Volatile(child) && n > 1 {
      assert child + rest[1..][..n - 1] == relative + rest[..n];
      NoDirectoryAtDatabase(node.entries, child, db, rest[1..], n - 1);
      var m :| 0 < m <= n - 1 && Volatile(child + rest[1..][..m]);
      assert child + rest[1..][..m] == relative + rest[..m + 1];
    }
  }

  /**
   What a backup keeps of a data root: when the walk accepts the tree, it yields every plain file
   outside the volatile trees and other than the database files, once, and nothing else.
   */
  lemma ManagedFilesAreExact(root: Node, db: Option<Path>, path: Path, content: bytes)
    requires root.Dir? && WellFormed(root) && Managed(root, db).Ok?
    ensures FileAt(path, content) in Managed(root, db).value <==> Lookup(root, path) == Some(content) && !Excluded(db, path)
    ensures PathsDistinct(Managed(root, db).value)
    ensures FileAt(path, content) in Managed(root, db).value ==> path != [] && Clean(path)
  {
    var f := FileAt(path, content);
    WalkDistinct(root.entries, [], db);
    if f in Managed(root, db).value { WalkPathsClean(root.entries, [], db, f); }
    if path != [] {
      assert [] + path == path;
      WalkYields(root.entries, [], db, path, content);
      ReachedIsEveryPrefix(db, [], path);
      if Lookup(root, path).Some? { StopsIsExcluded(root, db, path); }
    }
  }

  lemma StopsIsExcluded(root: Node, db: Option<Path>, path: Path)
    requires root.Dir? && Managed(root, db).Ok? && path != [] && Lookup(root, path).Some?
    ensures Excluded(db, path) <==> exists n :: 0 < n <= |path| && Stops(db, [] + path[..n])
  {
    assert path[..|path|] == path;
    if n :| 0 < n <= |path| && Stops(db, [] + path[..n]) {
      assert [] + path[..n] == path[..n];
      if DatabaseFile(db, path[..n]) && n < |path| {
        NoDirectoryAtDatabase(root.entries, [], db, path, n);
        var m :| 0 < m <= n && Volatile([] + path[..m]);
        assert [] + path[..m] == path[..m];
      }
    }
    if Excluded(db, path) {
      var n := if DatabaseFile(db, path) then |path| else if Volatile(path[..1]) then 1 else 2;
      assert [] + path[..n] == path[..n];
      assert Stops(db, [] + path[..n]);
    }
  }
}
