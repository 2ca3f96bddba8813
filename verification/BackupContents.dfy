/** What a backup holds of a data root, said of literal paths. */
module BackupContents {
  import opened Common
  import opened Paths
  import opened FileTree
  import opened Backup
  import opened BackupRestores
  import Digest

  /** The trees that are skipped, by their own path. */
  predicate SkippedTree(path: Path) {
    path == ["logs"] || path == ["temporary"] || path == ["assets", ".staging"]
  }

  /** The database file, and SQLite's three files beside it. */
  predicate OfDatabase(db: Option<Path>, path: Path) {
    && db.Some? && |db.value| == |path| > 0 && path[..|path| - 1] == db.value[..|path| - 1]
    && (var name := db.value[|path| - 1];
        path[|path| - 1] in {name, name + "-wal", name + "-shm", name + "-journal"})
  }

  predicate LeftOut(db: Option<Path>, path: Path) {
    || (|path| >= 1 && path[0] == "logs") || (|path| >= 1 && path[0] == "temporary")
    || (|path| >= 2 && path[0] == "assets" && path[1] == ".staging")
    || OfDatabase(db, path)
  }

  lemma VolatileIsSkipped(path: Path)
    ensures Volatile(path) <==> SkippedTree(path)
  {
  }

  lemma DatabaseFileIsOfDatabase(db: Option<Path>, path: Path)
    ensures DatabaseFile(db, path) <==> OfDatabase(db, path)
  {
    if db.Some? && db.value != [] {
      var base, name := db.value[..|db.value| - 1], Last(db.value);
      NameEnds(db.value, base, name, "");
      NameEnds(path, base, name, "-wal");
      NameEnds(path, base, name, "-shm");
      NameEnds(path, base, name, "-journal");
      assert path != [] ==> path == path[..|path| - 1] + [path[|path| - 1]];
      assert db.value == base + [name];
    }
  }

  lemma NameEnds(path: Path, base: Path, name: string, suffix: string)
    ensures path == base + [name + suffix]
            <==> path != [] && path[..|path| - 1] == base && path[|path| - 1] == name + suffix
  {
    if path != [] { assert path == path[..|path| - 1] + [path[|path| - 1]]; }
  }

  lemma ExcludedIsLeftOut(db: Option<Path>, path: Path)
    ensures Excluded(db, path) <==> LeftOut(db, path)
  {
    hide Volatile, SkippedTree, DatabaseFile, OfDatabase;
    DatabaseFileIsOfDatabase(db, path);
    if |path| >= 1 { FirstPart(path); }
    if |path| >= 2 { FirstTwoParts(path); }
  }

  lemma FirstPart(path: Path)
    requires |path| >= 1
    ensures Volatile(path[..1]) <==> path[0] == "logs" || path[0] == "temporary"
  {
    assert path[..1] == [path[0]];
  }

  lemma FirstTwoParts(path: Path)
    requires |path| >= 2
    ensures Volatile(path[..2]) <==> path[0] == "assets" && path[1] == ".staging"
  {
    assert path[..2] == [path[0], path[1]];
  }

  /**
   A backup keeps a file exactly when the data root holds it outside `logs`, `temporary` and
   `assets/.staging`, and it is neither the database nor one of the three files beside it.
   */
  lemma KeptFilesAreExact(root: Node, db: Option<Path>, path: Path, content: bytes)
    requires root.Dir? && WellFormed(root) && Managed(root, db).Ok?
    ensures FileAt(path, content) in Managed(root, db).value <==> Lookup(root, path) == Some(content) && !LeftOut(db, path)
  {
    hide WellFormed, Managed, Lookup, Excluded, LeftOut;
    ManagedFilesAreExact(root, db, path, content);
    ExcludedIsLeftOut(db, path);
  }

  /** ... and a restore gives back exactly those files, and the snapshot where the database goes. */
  lemma RestoredFilesAreExact(f: FoldTable, source: Source, data: seq<FileAt>, dbRel: Path, p: Path, content: bytes)
    requires source.root.Dir? && WellFormed(source.root) && Managed(source.root, source.db) == Ok(data)
    requires RestoreTarget(f, data, dbRel) && p != [] && Clean(p)
    ensures var root := RestoredRoot(data, source.snapshot, dbRel);
            Join(p) in root && root[Join(p)] == content <==>
              if p == dbRel then content == source.snapshot
              else Lookup(source.root, p) == Some(content) && !LeftOut(source.db, p)
  {
    hide WellFormed, Managed, Lookup, Excluded, LeftOut, RestoreTarget, RestoredRoot, Join, Clean;
    RestoredFilesAreSourceFiles(f, source, data, dbRel, p, content);
    ExcludedIsLeftOut(source.db, p);
  }

  /** What an interrupted staging left behind is not kept; neither is the write-ahead log. */
  lemma LeftoversAreNotKept(root: Node, db: Path, staged: Path, name: string)
    requires root.Dir? && WellFormed(root) && Managed(root, Some(db + [name])).Ok?
    ensures forall content :: FileAt(["assets", ".staging"] + staged, content) !in Managed(root, Some(db + [name])).value
    ensures forall content :: FileAt(db + [name + "-wal"], content) !in Managed(root, Some(db + [name])).value
  {
    var at := Some(db + [name]);
    var path, log := ["assets", ".staging"] + staged, db + [name + "-wal"];
    assert path[0] == "assets" && path[1] == ".staging";
    assert OfDatabase(at, log) by {
      assert log[..|log| - 1] == db == at.value[..|log| - 1];
    }
    assert LeftOut(at, path) && LeftOut(at, log);
    hide LeftOut, Managed, WellFormed, Lookup;
    forall content ensures FileAt(path, content) !in Managed(root, at).value { KeptFilesAreExact(root, at, path, content); }
    forall content ensures FileAt(log, content) !in Managed(root, at).value { KeptFilesAreExact(root, at, log, content); }
  }

  // ----------------------------------------------------------- which roots are accepted

  /** A skipped tree is a directory, a database file is a file, and nothing is a link or a device. */
  predicate Proper(db: Option<Path>, path: Path, node: Node) {
    && !node.Special?
    && (SkippedTree(path) ==> node.Dir?)
    && (OfDatabase(db, path) && !SkippedTree(path) ==> node.File?)
  }

  /** The path is not strictly inside a skipped tree. */
  predicate Outside(path: Path) {
    forall n :: 0 < n < |path| ==> !SkippedTree(path[..n])
  }

  ghost predicate ProperAt(db: Option<Path>, relative: Path, node: Node, rest: Path) {
    NodeAt(node, rest).Some? && Outside(relative + rest) ==> Proper(db, relative + rest, NodeAt(node, rest).value)
  }

  ghost predicate AllProper(db: Option<Path>, relative: Path, node: Node) {
    forall rest :: ProperAt(db, relative, node, rest)
  }

  ghost predicate EntriesProper(db: Option<Path>, relative: Path, entries: seq<Entry>) {
    forall k :: 0 <= k < |entries| ==> AllProper(db, relative + [entries[k].name], entries[k].node)
  }

  lemma InsideSkipped(child: Path, rest: Path)
    requires SkippedTree(child) && rest != []
    ensures !Outside(child + rest)
  {
    assert (child + rest)[..|child|] == child;
  }

  /** A directory is proper all through when it is itself and its entries are. */
  lemma DirectoryProper(db: Option<Path>, child: Path, entries: seq<Entry>)
    requires WellFormed(Dir(entries)) && Proper(db, child, Dir(entries))
    ensures AllProper(db, child, Dir(entries)) <==> SkippedTree(child) || EntriesProper(db, child, entries)
  {
    hide Proper, SkippedTree, OfDatabase, Outside, WellFormed;
    var node := Dir(entries);
    forall rest | rest == [] ensures ProperAt(db, child, node, rest) { assert child + [] == child; }
    if SkippedTree(child) {
      forall rest | rest != [] ensures ProperAt(db, child, node, rest) { InsideSkipped(child, rest); }
    } else {
      if AllProper(db, child, node) {
        forall k, rest | 0 <= k < |entries| ensures ProperAt(db, child + [entries[k].name], entries[k].node, rest) {
          FindsEntry(entries, k);
          var longer := [entries[k].name] + rest;
          assert longer[1..] == rest && child + longer == child + [entries[k].name] + rest;
          assert ProperAt(db, child, node, longer);
        }
      }
      if EntriesProper(db, child, entries) {
        forall rest | rest != [] ensures ProperAt(db, child, node, rest) {
          if Find(entries, rest[0]).Some? {
            var k :| 0 <= k < |entries| && entries[k] == Entry(rest[0], Find(entries, rest[0]).value);
            assert child + rest == child + [rest[0]] + rest[1..];
            assert ProperAt(db, child + [entries[k].name], entries[k].node, rest[1..]);
          }
        }
      }
    }
  }

  lemma {:induction false} EntryAccepted(entry: Entry, child: Path, db: Option<Path>)
    requires WellFormed(entry.node) && Outside(child)
    ensures WalkEntry(entry, child, db).Ok? <==> AllProper(db, child, entry.node)
    decreases entry, 1
  {
    hide WellFormed, Volatile, SkippedTree, DatabaseFile, OfDatabase, Walk;
    VolatileIsSkipped(child);
    DatabaseFileIsOfDatabase(db, child);
    assert child + [] == child;
    assert ProperAt(db, child, entry.node, []) <==> Proper(db, child, entry.node);
    if Proper(db, child, entry.node) {
      if entry.node.Dir? {
        DirectoryProper(db, child, entry.node.entries);
        if !SkippedTree(child) { WalkAccepted(entry.node.entries, child, db); }
      } else {
        forall rest | rest != [] ensures ProperAt(db, child, entry.node, rest) {}
      }
    }
  }

  lemma NotDeeper(relative: Path, name: string)
    requires Outside(relative) && !SkippedTree(relative)
    ensures Outside(relative + [name])
  {
    hide SkippedTree;
    forall n | 0 < n < |relative + [name]| ensures !SkippedTree((relative + [name])[..n]) {
      assert (relative + [name])[..n] == if n < |relative| then relative[..n] else relative;
    }
  }

  lemma {:induction false} WalkAccepted(entries: seq<Entry>, relative: Path, db: Option<Path>)
    requires WellFormed(Dir(entries)) && Outside(relative) && !SkippedTree(relative)
    ensures Walk(entries, relative, db).Ok? <==> EntriesProper(db, relative, entries)
    decreases entries, 0
  {
    hide SkippedTree, WalkEntry, AllProper, Outside;
    if entries != [] {
      NotDeeper(relative, entries[0].name);
      EntryAccepted(entries[0], relative + [entries[0].name], db);
      var others := entries[1..];
      assert forall k :: 0 <= k < |others| ==> others[k] == entries[k + 1];
      WalkAccepted(others, relative, db);
      if EntriesProper(db, relative, others) && AllProper(db, relative + [entries[0].name], entries[0].node) {
        forall k | 0 <= k < |entries| ensures AllProper(db, relative + [entries[k].name], entries[k].node) {
          if k > 0 { assert others[k - 1] == entries[k]; }
        }
      }
    }
  }

  /**
   A data root is accepted exactly when, outside the skipped trees, it holds no link and no device, a
   directory wherever a skipped tree is expected, and a file wherever one of the database is.
   */
  lemma AcceptedRootsAreExact(root: Node, db: Option<Path>)
    requires root.Dir? && WellFormed(root)
    ensures Managed(root, db).Ok?
            <==> forall path :: path != [] && NodeAt(root, path).Some? && Outside(path) ==> Proper(db, path, NodeAt(root, path).value)
  {
    assert Outside([]);
    assert Proper(db, [], root);
    assert NodeAt(root, []) == Some(root);
    hide WellFormed, Walk, Proper, Outside, NodeAt;
    var entries := root.entries;
    WalkAccepted(entries, [], db);
    DirectoryProper(db, [], entries);
    if AllProper(db, [], root) {
      forall path | path != [] && NodeAt(root, path).Some? && Outside(path) ensures Proper(db, path, NodeAt(root, path).value) {
        assert [] + path == path;
        assert ProperAt(db, [], root, path);
      }
    }
    if forall path :: path != [] && NodeAt(root, path).Some? && Outside(path) ==> Proper(db, path, NodeAt(root, path).value) {
      forall rest ensures ProperAt(db, [], root, rest) {
        assert [] + rest == rest;
        if rest == [] { assert NodeAt(root, rest) == Some(root); }
      }
    }
  }
}
