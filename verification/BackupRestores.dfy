/**
 What restoring a backup gives back. Entries that fit and stay apart are all placed with their own
 content, so a created backup restores to exactly the managed files and the database snapshot; which
 created backups load again, and which changes to a created backup go unnoticed, are stated exactly,
 with a case of each exception.
 */
module BackupRestores {
  import opened Common
  import Digest
  import opened Json
  import opened JsonCanonical
  import opened Ordering
  import opened Paths
  import opened FileTree
  import opened BackupFormat
  import opened Backup
  import opened BackupTheorems
  import opened BackupRoundTrip

  // ------------------------------------------------------------ placing the entries

  /** The entry is payload and goes to `to`. */
  predicate Goes(dbAt: string, e: ManifestEntry, to: string) {
    e.path != METADATA_NAME && Destination(e.path, dbAt) == Some(to)
  }

  /** One entry can be placed on top of what is there. */
  ghost predicate Fits(h: Digest.Hash, f: FoldTable, t: Tree, dbAt: string, e: ManifestEntry,
                       placed: map<string, bytes>, keys: set<string>)
  {
    e.path != METADATA_NAME ==>
      && Destination(e.path, dbAt).Some? && Verified(h, t, e)
      && var to := Destination(e.path, dbAt).value;
         Fold(f, to) != "" && Fold(f, to) !in keys && Writable(placed, to)
  }

  /** Two entries do not get in each other's way. */
  ghost predicate Separate(f: FoldTable, dbAt: string, a: ManifestEntry, b: ManifestEntry) {
    forall to, to' :: Goes(dbAt, a, to) && Goes(dbAt, b, to') ==> Fold(f, to) != Fold(f, to') && !Clash(to, to')
  }

  ghost predicate AllSeparate(f: FoldTable, dbAt: string, entries: seq<ManifestEntry>) {
    forall i, j :: 0 <= i < j < |entries| ==> Separate(f, dbAt, entries[i], entries[j])
  }

  lemma WritableAfter(placed: map<string, bytes>, to: string, content: bytes, to': string)
    requires Writable(placed, to') && to != to' && !Clash(to, to')
    ensures Writable(placed[to := content], to')
  {
    hide Clash;
  }

  /** Placing one entry leaves room for a separate one. */
  lemma FitsAfter(h: Digest.Hash, f: FoldTable, t: Tree, dbAt: string, first: ManifestEntry, e: ManifestEntry,
                  placed: map<string, bytes>, keys: set<string>, to: string)
    requires Goes(dbAt, first, to) && first.path in t.files && Separate(f, dbAt, first, e)
    requires Fits(h, f, t, dbAt, e, placed, keys)
    ensures Fits(h, f, t, dbAt, e, placed[to := t.files[first.path]], keys + {Fold(f, to)})
  {
    hide Fold, Destination, Clash, Verified, Writable, METADATA_NAME, Separate;
    if e.path != METADATA_NAME {
      var to' := Destination(e.path, dbAt).value;
      SeparateTargets(f, dbAt, first, e, to, to');
      assert Fold(f, to') !in keys + {Fold(f, to)};
      WritableAfter(placed, to, t.files[first.path], to');
    }
  }

  lemma SeparateTargets(f: FoldTable, dbAt: string, a: ManifestEntry, b: ManifestEntry, to: string, to': string)
    requires Separate(f, dbAt, a, b) && Goes(dbAt, a, to) && Goes(dbAt, b, to')
    ensures Fold(f, to) != Fold(f, to') && !Clash(to, to') && to != to'
  {
    hide Fold, Clash, Goes;
  }

  /** Entries that fit and stay apart are all placed, each with its own content, and nothing else is. */
  ghost predicate PlacedAs(t: Tree, dbAt: string, entries: seq<ManifestEntry>, placed: map<string, bytes>, files: map<string, bytes>) {
    && (forall p :: p in files ==> p in placed || exists e :: e in entries && Goes(dbAt, e, p))
    && (forall p :: p in placed ==> p in files && files[p] == placed[p])
    && (forall e, to :: e in entries && Goes(dbAt, e, to) ==> e.path in t.files && to in files && files[to] == t.files[e.path])
  }

  lemma PlaceNothing(h: Digest.Hash, f: FoldTable, t: Tree, dbAt: string, placed: map<string, bytes>, keys: set<string>)
    ensures Place(h, f, t, dbAt, [], placed, keys) == Ok(placed) && PlacedAs(t, dbAt, [], placed, placed)
  {
  }

  lemma PlacedAlso(t: Tree, dbAt: string, entries: seq<ManifestEntry>, placed: map<string, bytes>, to: string, files: map<string, bytes>)
    requires entries != [] && Goes(dbAt, entries[0], to) && entries[0].path in t.files && to !in placed
    requires PlacedAs(t, dbAt, entries[1..], placed[to := t.files[entries[0].path]], files)
    ensures PlacedAs(t, dbAt, entries, placed, files)
  {
    hide Destination, METADATA_NAME;
    var next := placed[to := t.files[entries[0].path]];
    assert entries == [entries[0]] + entries[1..];
    assert to in next;
  }

  lemma PlacedSkipping(t: Tree, dbAt: string, entries: seq<ManifestEntry>, placed: map<string, bytes>, files: map<string, bytes>)
    requires entries != [] && entries[0].path == METADATA_NAME && PlacedAs(t, dbAt, entries[1..], placed, files)
    ensures PlacedAs(t, dbAt, entries, placed, files)
  {
    hide Destination, METADATA_NAME;
    assert entries == [entries[0]] + entries[1..];
  }

  lemma {:induction false} PlaceAll(h: Digest.Hash, f: FoldTable, t: Tree, dbAt: string, entries: seq<ManifestEntry>,
                                    placed: map<string, bytes>, keys: set<string>)
    requires AllSeparate(f, dbAt, entries)
    requires forall e :: e in entries ==> Fits(h, f, t, dbAt, e, placed, keys)
    ensures Place(h, f, t, dbAt, entries, placed, keys).Ok?
    ensures PlacedAs(t, dbAt, entries, placed, Place(h, f, t, dbAt, entries, placed, keys).value)
  {
    hide Place, PlacedAs, Fits, Separate, Fold, Destination, Verified, Clash, Writable, METADATA_NAME;
    if entries == [] {
      PlaceNothing(h, f, t, dbAt, placed, keys);
    } else {
      PlaceStep(h, f, t, dbAt, entries, 0, placed, keys);
      assert entries[0..] == entries;
      assert Fits(h, f, t, dbAt, entries[0], placed, keys);
      var rest := entries[1..];
      assert AllSeparate(f, dbAt, rest) by {
        forall i, j | 0 <= i < j < |rest| ensures Separate(f, dbAt, rest[i], rest[j]) {
          assert Separate(f, dbAt, entries[i + 1], entries[j + 1]);
        }
      }
      forall e | e in rest ensures Fits(h, f, t, dbAt, e, placed, keys) && Separate(f, dbAt, entries[0], e) {
        var k :| 0 <= k < |rest| && rest[k] == e;
        assert entries[k + 1] == e && Separate(f, dbAt, entries[0], entries[k + 1]);
      }
      if entries[0].path == METADATA_NAME {
        PlaceAll(h, f, t, dbAt, rest, placed, keys);
        PlacedSkipping(t, dbAt, entries, placed, Place(h, f, t, dbAt, rest, placed, keys).value);
      } else {
        FitsFacts(h, f, t, dbAt, entries[0], placed, keys);
        var to := Destination(entries[0].path, dbAt).value;
        var next, seen := placed[to := t.files[entries[0].path]], keys + {Fold(f, to)};
        forall e | e in rest ensures Fits(h, f, t, dbAt, e, next, seen) {
          FitsAfter(h, f, t, dbAt, entries[0], e, placed, keys, to);
        }
        PlaceAll(h, f, t, dbAt, rest, next, seen);
        PlacedAlso(t, dbAt, entries, placed, to, Place(h, f, t, dbAt, rest, next, seen).value);
      }
    }
  }

  lemma FitsFacts(h: Digest.Hash, f: FoldTable, t: Tree, dbAt: string, e: ManifestEntry, placed: map<string, bytes>, keys: set<string>)
    requires Fits(h, f, t, dbAt, e, placed, keys) && e.path != METADATA_NAME
    ensures Destination(e.path, dbAt).Some? && Verified(h, t, e) && e.path in t.files
    ensures var to := Destination(e.path, dbAt).value;
            Goes(dbAt, e, to) && Fold(f, to) != "" && Fold(f, to) !in keys && Writable(placed, to) && to !in placed
  {
    hide Fold, Destination, METADATA_NAME, Clash;
  }

  // ---------------------------------------------------------------- data root map

  lemma {:induction false} DataMapHolds(data: seq<FileAt>)
    requires Managedlike(data)
    ensures forall i :: 0 <= i < |data| ==> Join(data[i].path) in DataMap(data) && DataMap(data)[Join(data[i].path)] == data[i].content
    ensures forall p :: p in DataMap(data) ==> exists i :: 0 <= i < |data| && Join(data[i].path) == p
  {
    DataMapKeys(data);
    hide Join, Clean;
    if data != [] {
      var front, last := data[..|data| - 1], Last(data);
      DataMapHolds(front);
      forall i | 0 <= i < |front| ensures Join(data[i].path) != Join(last.path) {
        if Join(data[i].path) == Join(last.path) { JoinInjective(data[i].path, last.path); }
      }
    }
  }

  lemma {:induction false} DataMapKeys(data: seq<FileAt>)
    ensures forall p :: p in DataMap(data) ==> exists i :: 0 <= i < |data| && Join(data[i].path) == p
  {
    hide Join, Clean;
    if data != [] {
      var front, last := data[..|data| - 1], Last(data);
      DataMapKeys(front);
      forall p | p in DataMap(data) ensures exists i :: 0 <= i < |data| && Join(data[i].path) == p {
        if p != Join(last.path) {
          assert p in DataMap(front);
          var i :| 0 <= i < |front| && Join(front[i].path) == p;
          assert Join(data[i].path) == p;
        } else {
          assert Join(data[|data| - 1].path) == p;
        }
      }
    }
  }

  lemma {:induction false} LookupThrough(node: Node, p: Path, rest: Path)
    requires rest != [] && Lookup(node, p + rest).Some?
    ensures Lookup(node, p).None?
    decreases p
  {
    if p == [] {
      assert p + rest == rest;
    } else {
      assert (p + rest)[0] == p[0] && (p + rest)[1..] == p[1..] + rest;
      LookupThrough(Find(node.entries, p[0]).value, p[1..], rest);
    }
  }

  lemma NotBelow(root: Node, p: Path, q: Path)
    requires Clean(p) && Clean(q) && p != [] && q != [] && Lookup(root, p).Some? && Lookup(root, q).Some?
    ensures !StartsWith(Join(q), Join(p) + "/")
  {
    hide Join, Clean, Lookup, StartsWith;
    if StartsWith(Join(q), Join(p) + "/") {
      JoinPrefix(p, q);
      assert q == p + q[|p|..];
      LookupThrough(root, p, q[|p|..]);
      assert false;
    }
  }

  /** Two files of one tree never need each other as a directory. */
  lemma FilesDoNotClash(root: Node, p: Path, q: Path)
    requires Clean(p) && Clean(q) && p != [] && q != [] && Lookup(root, p).Some? && Lookup(root, q).Some?
    ensures !Clash(Join(p), Join(q))
  {
    hide Join, Clean, Lookup;
    NotBelow(root, p, q);
    NotBelow(root, q, p);
  }

  // ------------------------------------------------------------------- round trip

  /** A database path below the restore root, outside `assets`, that meets no restored path. */
  ghost predicate RestoreTarget(f: FoldTable, data: seq<FileAt>, dbRel: Path) {
    && dbRel != [] && Clean(dbRel) && dbRel[0] != "assets"
    && forall i :: 0 <= i < |data| ==>
         Fold(f, Join(dbRel)) != Fold(f, Join(data[i].path)) && !Clash(Join(dbRel), Join(data[i].path))
  }

  lemma {:induction false} FoldIsNotEmpty(f: FoldTable, s: string)
    requires s != ""
    ensures Fold(f, s) != ""
  {
    assert f(s[0]) != "";
  }

  lemma DataPathGoes(dbAt: string, p: Path)
    ensures Destination(DataPath(p), dbAt) == Some(Join(p)) && Destination(DATABASE_PAYLOAD, dbAt) == Some(dbAt)
    ensures DataPath(p) != METADATA_NAME && DATABASE_PAYLOAD != METADATA_NAME
  {
    PayloadNames(p);
    ControlNamesDiffer();
    hide Join, METADATA_NAME, DATABASE_PAYLOAD;
    assert |DATA_PREFIX| == 12 && |DataPath(p)| >= 13;
    assert DataPath(p)[..13] == DATA_PREFIX + "/" && DataPath(p)[13..] == Join(p);
  }

  /** Where the i-th stored file goes. */
  function TargetAt(data: seq<FileAt>, dbRel: Path, i: nat): string
    requires i <= |data|
  {
    if i == 0 then Join(dbRel) else Join(data[i - 1].path)
  }

  ghost predicate NoFileClashes(data: seq<FileAt>) {
    forall i, j :: 0 <= i < j < |data| ==> !Clash(Join(data[i].path), Join(data[j].path))
  }

  lemma ClashIsSymmetric(a: string, b: string)
    ensures Clash(a, b) == Clash(b, a)
  {
  }

  lemma TargetsSeparate(f: FoldTable, data: seq<FileAt>, dbRel: Path, i: nat, j: nat)
    requires DataFoldsApart(f, data) && NoFileClashes(data) && RestoreTarget(f, data, dbRel) && i <= |data| && j <= |data| && i != j
    ensures Fold(f, TargetAt(data, dbRel, i)) != Fold(f, TargetAt(data, dbRel, j))
    ensures !Clash(TargetAt(data, dbRel, i), TargetAt(data, dbRel, j))
  {
    hide Fold, Join, Clash, Clean;
    if i < j {
    } else {
      ClashIsSymmetric(TargetAt(data, dbRel, i), TargetAt(data, dbRel, j));
    }
  }

  lemma StoredGoes(h: Digest.Hash, data: seq<FileAt>, snapshot: bytes, dbRel: Path, i: nat)
    requires i <= |data|
    ensures var e := EntriesFor(h, Payloads(data, snapshot))[i];
            Goes(Join(dbRel), e, TargetAt(data, dbRel, i))
            && e == EntryFor(h, Payloads(data, snapshot)[i])
  {
    hide Join, DataPath, Destination, METADATA_NAME, DATABASE_PAYLOAD, Payloads;
    StoredPath(data, snapshot, i);
    DataPathGoes(Join(dbRel), if i == 0 then [] else data[i - 1].path);
  }

  lemma StoredPath(data: seq<FileAt>, snapshot: bytes, i: nat)
    requires i <= |data|
    ensures Payloads(data, snapshot)[i].path == if i == 0 then DATABASE_PAYLOAD else DataPath(data[i - 1].path)
  {
    hide DataPath, DATABASE_PAYLOAD;
  }

  lemma GoesOneWay(dbAt: string, e: ManifestEntry, to: string, to': string)
    requires Goes(dbAt, e, to) && Goes(dbAt, e, to')
    ensures to == to'
  {
    hide Destination, METADATA_NAME;
  }

  /** Stored entries in the order they were copied: separate, and each fits into an empty root. */
  lemma StoredSeparate(h: Digest.Hash, f: FoldTable, data: seq<FileAt>, snapshot: bytes, dbRel: Path, i: nat, j: nat)
    requires DataFoldsApart(f, data) && NoFileClashes(data) && RestoreTarget(f, data, dbRel) && i <= |data| && j <= |data| && i != j
    ensures var payload := EntriesFor(h, Payloads(data, snapshot)); Separate(f, Join(dbRel), payload[i], payload[j])
  {
    hide Fold, Clash, Join, Payloads, EntriesFor, TargetAt, Goes, DataFoldsApart, NoFileClashes, RestoreTarget;
    var payload := EntriesFor(h, Payloads(data, snapshot));
    StoredGoes(h, data, snapshot, dbRel, i);
    StoredGoes(h, data, snapshot, dbRel, j);
    TargetsSeparate(f, data, dbRel, i, j);
    SeparateBy(f, Join(dbRel), payload[i], payload[j], TargetAt(data, dbRel, i), TargetAt(data, dbRel, j));
  }

  lemma SeparateBy(f: FoldTable, dbAt: string, a: ManifestEntry, b: ManifestEntry, x: string, y: string)
    requires Goes(dbAt, a, x) && Goes(dbAt, b, y) && Fold(f, x) != Fold(f, y) && !Clash(x, y)
    ensures Separate(f, dbAt, a, b)
  {
    hide Fold, Clash, Goes;
    forall to, to' | Goes(dbAt, a, to) && Goes(dbAt, b, to') ensures to == x && to' == y {
      GoesOneWay(dbAt, a, to, x);
      GoesOneWay(dbAt, b, to', y);
    }
  }

  lemma TargetIsName(f: FoldTable, data: seq<FileAt>, dbRel: Path, i: nat)
    requires Managedlike(data) && RestoreTarget(f, data, dbRel) && i <= |data|
    ensures TargetAt(data, dbRel, i) != "." && Fold(f, TargetAt(data, dbRel, i)) != ""
  {
    hide Fold, Join, Clash, Clean;
    JoinedIsNotDot(if i == 0 then dbRel else data[i - 1].path);
    FoldIsNotEmpty(f, TargetAt(data, dbRel, i));
  }

  lemma StoredFits(h: Digest.Hash, f: FoldTable, t: Tree, data: seq<FileAt>, snapshot: bytes, dbRel: Path, i: nat)
    requires Managedlike(data) && RestoreTarget(f, data, dbRel) && i <= |data|
    requires Verified(h, t, EntriesFor(h, Payloads(data, snapshot))[i])
    ensures Fits(h, f, t, Join(dbRel), EntriesFor(h, Payloads(data, snapshot))[i], map[], {})
  {
    hide Fold, Join, Clash, Managedlike, RestoreTarget, Payloads, EntriesFor, TargetAt, Destination, METADATA_NAME, Verified;
    StoredGoes(h, data, snapshot, dbRel, i);
    TargetIsName(f, data, dbRel, i);
  }

  /** Every entry of a published manifest fits, and any two of them stay apart. */
  lemma PublishedEntriesFit(h: Digest.Hash, f: FoldTable, stamp: Stamp, t: Tree, data: seq<FileAt>, snapshot: bytes, dbRel: Path)
    requires Managedlike(data) && DataFoldsApart(f, data) && NoFileClashes(data) && RestoreTarget(f, data, dbRel)
    requires forall e :: e in AllEntries(h, f, stamp, Payloads(data, snapshot)) ==> Verified(h, t, e)
    ensures forall e :: e in AllEntries(h, f, stamp, Payloads(data, snapshot)) ==> Fits(h, f, t, Join(dbRel), e, map[], {})
  {
    var entries := AllEntries(h, f, stamp, Payloads(data, snapshot));
    var payload := EntriesFor(h, Payloads(data, snapshot));
    hide Fold, Join, AllEntries, Payloads, EntriesFor, RestoreTarget, Managedlike, DataFoldsApart, NoFileClashes, METADATA_NAME,
      Verified, Destination, Writable;
    forall e | e in entries ensures Fits(h, f, t, Join(dbRel), e, map[], {}) {
      if e.path != METADATA_NAME {
        ListedPayload(h, f, stamp, data, snapshot, e);
        var i :| 0 <= i < |payload| && payload[i] == e;
        assert |payload| == |data| + 1;
        StoredFits(h, f, t, data, snapshot, dbRel, i);
      }
    }
  }

  /** A listed entry is the metadata's or one of the payload's. */
  lemma ListedPayload(h: Digest.Hash, f: FoldTable, stamp: Stamp, data: seq<FileAt>, snapshot: bytes, e: ManifestEntry)
    requires Managedlike(data)
    ensures e in AllEntries(h, f, stamp, Payloads(data, snapshot)) && e.path != METADATA_NAME
            <==> e in EntriesFor(h, Payloads(data, snapshot))
  {
    var stored := Payloads(data, snapshot);
    hide AllEntries, Payloads, EntriesFor, WithMetadata, METADATA_NAME, Managedlike;
    ManifestListsAll(h, f, stamp, stored);
    ListingSplits(h, f, stamp, data, snapshot);
    SameMembers(AllEntries(h, f, stamp, stored), EntriesFor(h, WithMetadata(h, f, stamp, stored)), e);
  }

  lemma MetadataIsSeparate(f: FoldTable, dbAt: string, a: ManifestEntry, b: ManifestEntry)
    requires a.path == METADATA_NAME || b.path == METADATA_NAME
    ensures Separate(f, dbAt, a, b)
  {
    hide METADATA_NAME, Destination, Fold, Clash;
  }

  lemma ListedSeparate(h: Digest.Hash, f: FoldTable, stamp: Stamp, data: seq<FileAt>, snapshot: bytes, dbRel: Path,
                       a: ManifestEntry, b: ManifestEntry)
    requires Managedlike(data) && DataFoldsApart(f, data) && NoFileClashes(data) && RestoreTarget(f, data, dbRel)
    requires a in AllEntries(h, f, stamp, Payloads(data, snapshot)) && b in AllEntries(h, f, stamp, Payloads(data, snapshot)) && a != b
    ensures Separate(f, Join(dbRel), a, b)
  {
    hide AllEntries, Payloads, EntriesFor, RestoreTarget, Managedlike, DataFoldsApart, NoFileClashes, METADATA_NAME, Separate, Join;
    if a.path == METADATA_NAME || b.path == METADATA_NAME {
      MetadataIsSeparate(f, Join(dbRel), a, b);
    } else {
      var payload := EntriesFor(h, Payloads(data, snapshot));
      ListedPayload(h, f, stamp, data, snapshot, a);
      ListedPayload(h, f, stamp, data, snapshot, b);
      var m := IndexOf(payload, a);
      var n := IndexOf(payload, b);
      assert |payload| == |data| + 1;
      StoredSeparate(h, f, data, snapshot, dbRel, m, n);
    }
  }

  lemma PublishedEntriesSeparate(h: Digest.Hash, f: FoldTable, stamp: Stamp, data: seq<FileAt>, snapshot: bytes, dbRel: Path)
    requires Managedlike(data) && DataFoldsApart(f, data) && NoFileClashes(data) && RestoreTarget(f, data, dbRel)
    requires FoldsApart(f, AllEntries(h, f, stamp, Payloads(data, snapshot)))
    ensures AllSeparate(f, Join(dbRel), AllEntries(h, f, stamp, Payloads(data, snapshot)))
  {
    hide AllEntries, Payloads, RestoreTarget, Managedlike, DataFoldsApart, NoFileClashes, Separate, Join, Fold;
    var entries := AllEntries(h, f, stamp, Payloads(data, snapshot));
    forall i, j | 0 <= i < j < |entries| ensures Separate(f, Join(dbRel), entries[i], entries[j]) {
      assert entries[i] in entries && entries[j] in entries;
      assert Fold(f, entries[i].path) != Fold(f, entries[j].path);
      ListedSeparate(h, f, stamp, data, snapshot, dbRel, entries[i], entries[j]);
    }
  }

  /** What a restore should leave below its root. */
  function RestoredRoot(data: seq<FileAt>, snapshot: bytes, dbRel: Path): map<string, bytes> {
    DataMap(data)[Join(dbRel) := snapshot]
  }

  function ContentAt(data: seq<FileAt>, snapshot: bytes, i: nat): bytes
    requires i <= |data|
  {
    if i == 0 then snapshot else data[i - 1].content
  }

  lemma RestoredRootHolds(f: FoldTable, data: seq<FileAt>, snapshot: bytes, dbRel: Path)
    requires Managedlike(data) && RestoreTarget(f, data, dbRel)
    ensures var root := RestoredRoot(data, snapshot, dbRel);
            && (forall i :: 0 <= i <= |data| ==>
                  TargetAt(data, dbRel, i) in root && root[TargetAt(data, dbRel, i)] == ContentAt(data, snapshot, i))
            && (forall p :: p in root ==> exists i :: 0 <= i <= |data| && TargetAt(data, dbRel, i) == p)
  {
    hide Join, Clash, Fold, Managedlike;
    var root := RestoredRoot(data, snapshot, dbRel);
    DataMapHolds(data);
    forall i | 0 <= i <= |data|
      ensures TargetAt(data, dbRel, i) in root && root[TargetAt(data, dbRel, i)] == ContentAt(data, snapshot, i)
    {
      if i > 0 {
        assert Join(data[i - 1].path) in DataMap(data);
        assert Fold(f, Join(dbRel)) != Fold(f, Join(data[i - 1].path));
      }
    }
    forall p | p in root ensures exists i :: 0 <= i <= |data| && TargetAt(data, dbRel, i) == p {
      if p == Join(dbRel) {
        assert TargetAt(data, dbRel, 0) == p;
      } else {
        var k :| 0 <= k < |data| && Join(data[k].path) == p;
        assert TargetAt(data, dbRel, k + 1) == p;
      }
    }
  }

  lemma StoredContent(h: Digest.Hash, f: FoldTable, stamp: Stamp, data: seq<FileAt>, snapshot: bytes, i: nat)
    requires Managedlike(data) && i <= |data|
    ensures var t, e := Published(h, f, stamp, Payloads(data, snapshot)), EntriesFor(h, Payloads(data, snapshot))[i];
            e.path in t.files && t.files[e.path] == ContentAt(data, snapshot, i)
  {
    hide Published, WithMetadata, Payloads, MANIFEST_NAME, HASH_NAME, Managedlike, StoredDistinct, ContentAt, PathAt;
    var stored := Payloads(data, snapshot);
    PayloadContent(data, snapshot, i);
    StoredIsWithMetadata(h, f, stamp, stored, i);
    PayloadsDistinct(h, f, stamp, data, snapshot);
    PublishedFiles(h, f, stamp, stored);
    assert stored[i] in WithMetadata(h, f, stamp, stored);
  }

  lemma PayloadContent(data: seq<FileAt>, snapshot: bytes, i: nat)
    requires i <= |data|
    ensures Payloads(data, snapshot)[i].content == ContentAt(data, snapshot, i)
  {
    hide DataPath, DATABASE_PAYLOAD;
  }

  lemma StoredIsWithMetadata(h: Digest.Hash, f: FoldTable, stamp: Stamp, stored: seq<Stored>, i: nat)
    requires i < |stored|
    ensures stored[i] in WithMetadata(h, f, stamp, stored)
    ensures EntriesFor(h, stored)[i].path == stored[i].path
  {
    hide MetadataFile, SortEntries, METADATA_NAME;
    assert WithMetadata(h, f, stamp, stored)[i] == stored[i];
  }

  lemma PlacedHas(h: Digest.Hash, f: FoldTable, stamp: Stamp, data: seq<FileAt>, snapshot: bytes, dbRel: Path,
                  files: map<string, bytes>, i: nat)
    requires Managedlike(data) && i <= |data|
    requires PlacedAs(Published(h, f, stamp, Payloads(data, snapshot)), Join(dbRel),
                      AllEntries(h, f, stamp, Payloads(data, snapshot)), map[], files)
    ensures TargetAt(data, dbRel, i) in files && files[TargetAt(data, dbRel, i)] == ContentAt(data, snapshot, i)
  {
    hide AllEntries, Payloads, EntriesFor, Published, Managedlike, Join, TargetAt, ContentAt, Goes, METADATA_NAME;
    var e := EntriesFor(h, Payloads(data, snapshot))[i];
    StoredGoes(h, data, snapshot, dbRel, i);
    ListedPayload(h, f, stamp, data, snapshot, e);
    StoredContent(h, f, stamp, data, snapshot, i);
  }

  lemma PlacedOnly(h: Digest.Hash, f: FoldTable, stamp: Stamp, data: seq<FileAt>, snapshot: bytes, dbRel: Path,
                   files: map<string, bytes>, p: string)
    requires Managedlike(data) && p in files
    requires PlacedAs(Published(h, f, stamp, Payloads(data, snapshot)), Join(dbRel),
                      AllEntries(h, f, stamp, Payloads(data, snapshot)), map[], files)
    ensures exists i :: 0 <= i <= |data| && TargetAt(data, dbRel, i) == p
  {
    hide AllEntries, Payloads, EntriesFor, Published, Managedlike, Join, TargetAt, Goes, METADATA_NAME;
    var payload := EntriesFor(h, Payloads(data, snapshot));
    var e :| e in AllEntries(h, f, stamp, Payloads(data, snapshot)) && Goes(Join(dbRel), e, p);
    GoesIsPayload(Join(dbRel), e, p);
    ListedPayload(h, f, stamp, data, snapshot, e);
    var i := IndexOf(payload, e);
    assert |payload| == |data| + 1;
    StoredGoes(h, data, snapshot, dbRel, i);
    GoesOneWay(Join(dbRel), e, p, TargetAt(data, dbRel, i));
  }

  /** Placing a published manifest leaves exactly the restored root. */
  lemma PlacedIsRestoredRoot(h: Digest.Hash, f: FoldTable, stamp: Stamp, data: seq<FileAt>, snapshot: bytes, dbRel: Path,
                             files: map<string, bytes>)
    requires Managedlike(data) && RestoreTarget(f, data, dbRel)
    requires PlacedAs(Published(h, f, stamp, Payloads(data, snapshot)), Join(dbRel),
                      AllEntries(h, f, stamp, Payloads(data, snapshot)), map[], files)
    ensures files == RestoredRoot(data, snapshot, dbRel)
  {
    hide AllEntries, Payloads, Published, Managedlike, RestoreTarget, RestoredRoot, Join, TargetAt, ContentAt, PlacedAs;
    var root := RestoredRoot(data, snapshot, dbRel);
    RestoredRootHolds(f, data, snapshot, dbRel);
    forall p | p in files ensures p in root {
      PlacedOnly(h, f, stamp, data, snapshot, dbRel, files, p);
    }
    forall p | p in root ensures p in files && files[p] == root[p] {
      var i :| 0 <= i <= |data| && TargetAt(data, dbRel, i) == p;
      PlacedHas(h, f, stamp, data, snapshot, dbRel, files, i);
    }
    SameMaps(files, root);
  }

  lemma GoesIsPayload(dbAt: string, e: ManifestEntry, to: string)
    requires Goes(dbAt, e, to)
    ensures e.path != METADATA_NAME
  {
  }

  lemma SameMaps(a: map<string, bytes>, b: map<string, bytes>)
    requires forall p :: p in a ==> p in b
    requires forall p :: p in b ==> p in a && a[p] == b[p]
    ensures a == b
  {
  }

  lemma OutsideAssets(data: seq<FileAt>, snapshot: bytes, dbRel: Path)
    requires dbRel != [] && Clean(dbRel) && dbRel[0] != "assets"
    ensures Join(dbRel) != "assets" && !StartsWith(Join(dbRel), "assets/")
  {
    assert Name("assets");
    assert Clean(["assets"]) && Join(["assets"]) == "assets";
    assert "assets" + "/" == "assets/";
    hide Name, Clean, Join, StartsWith;
    if Join(dbRel) == "assets" {
      JoinInjective(dbRel, ["assets"]);
      assert false;
    }
    if StartsWith(Join(dbRel), "assets/") {
      JoinPrefix(["assets"], dbRel);
      assert false;
    }
  }

  lemma AuditSeesTheSame(f: FoldTable, data: seq<FileAt>, snapshot: bytes, dbRel: Path)
    requires Managedlike(data) && RestoreTarget(f, data, dbRel)
    ensures AssetsOf(RestoredRoot(data, snapshot, dbRel)) == AssetsOf(DataMap(data))
  {
    OutsideAssets(data, snapshot, dbRel);
    hide DataMap, Join, StartsWith, Managedlike, RestoreTarget;
  }

  lemma NoFileClashesIn(root: Node, db: Option<Path>)
    requires root.Dir? && WellFormed(root) && Managed(root, db).Ok?
    ensures Managedlike(Managed(root, db).value) && NoFileClashes(Managed(root, db).value)
  {
    hide Join, Clean, WellFormed, Lookup, Clash, Excluded, Managed;
    var data := Managed(root, db).value;
    forall i | 0 <= i < |data| ensures data[i].path != [] && Clean(data[i].path) && Lookup(root, data[i].path).Some? {
      assert data[i] == FileAt(data[i].path, data[i].content) && data[i] in data;
      ManagedFilesAreExact(root, db, data[i].path, data[i].content);
    }
    ManagedFilesAreExact(root, db, [], []);
    forall i, j | 0 <= i < j < |data| ensures !Clash(Join(data[i].path), Join(data[j].path)) {
      FilesDoNotClash(root, data[i].path, data[j].path);
    }
  }

  /** A creation that succeeds, taken apart. */
  ghost predicate CreatedFrom(h: Digest.Hash, f: FoldTable, audit: Audit, stamp: Stamp, source: Source,
                              data: seq<FileAt>, t: Tree, result: BackupResult)
    requires source.root.Dir?
  {
    Managed(source.root, source.db) == Ok(data) && Created(h, f, audit, stamp, source) == Ok((t, result))
  }

  lemma CreatedParts(h: Digest.Hash, f: FoldTable, audit: Audit, stamp: Stamp, source: Source,
                     data: seq<FileAt>, t: Tree, result: BackupResult)
    requires source.root.Dir? && CreatedFrom(h, f, audit, stamp, source, data, t, result)
    ensures stamp.schemaVersion == SCHEMA_VERSION
    ensures audit(source.snapshot, AssetsOf(DataMap(data)))
    ensures t == Published(h, f, stamp, Payloads(data, source.snapshot))
    ensures result.sha == h(ManifestFile(h, f, stamp, Payloads(data, source.snapshot)))
    ensures result.fileCount == |AllEntries(h, f, stamp, Payloads(data, source.snapshot))|
    ensures result.totalBytes == TotalSize(AllEntries(h, f, stamp, Payloads(data, source.snapshot)))
  {
    hide Managed, Published, AllEntries, ManifestFile, Payloads, AssetsOf, DataMap, TotalSize;
  }

  /**
   The round trip. Restoring a created backup, to a database path outside `assets` that meets no
   restored path, gives exactly the managed files of the source and the database snapshot, with
   the counts and the digest the backup reported.
   */
  lemma RestoreGivesBack(h: Digest.Hash, f: FoldTable, audit: Audit, stamp: Stamp, source: Source, dbRel: Path, free: nat,
                         data: seq<FileAt>, t: Tree, result: BackupResult)
    requires source.root.Dir? && WellFormed(source.root) && CreatedFrom(h, f, audit, stamp, source, data, t, result)
    requires Transportable(h, f, stamp, data, source.snapshot) && RestoreTarget(f, data, dbRel)
    requires TotalSize(EntriesFor(h, Payloads(data, source.snapshot))) <= free
    ensures Restore(h, f, audit, t, Some(dbRel), free)
            == Ok(Restored(RestoredRoot(data, source.snapshot, dbRel), |data| + 1,
                           TotalSize(EntriesFor(h, Payloads(data, source.snapshot))), result.sha))
    ensures result.fileCount == |data| + 2
    ensures result.totalBytes
            == TotalSize(EntriesFor(h, Payloads(data, source.snapshot)))
               + |MetadataFile(stamp, SortEntries(f, EntriesFor(h, Payloads(data, source.snapshot))))|
  {
    hide SortEntries, MetadataFile, WellFormed, Managed, Created, Published, AllEntries, ManifestFile, Payloads, EntriesFor, AssetsOf, DataMap, TotalSize, Transportable,
      RestoreTarget, RestoredRoot, Restore, Managedlike, NoFileClashes, WithMetadata;
    CreatedParts(h, f, audit, stamp, source, data, t, result);
    AllEntriesTotal(h, f, stamp, Payloads(data, source.snapshot));
    NoFileClashesIn(source.root, source.db);
    ManifestListsAll(h, f, stamp, Payloads(data, source.snapshot));
    assert |Payloads(data, source.snapshot)| == |data| + 1;
    PublishedRestores(h, f, audit, stamp, data, source.snapshot, dbRel, free);
  }

  lemma AllEntriesTotal(h: Digest.Hash, f: FoldTable, stamp: Stamp, stored: seq<Stored>)
    ensures TotalSize(AllEntries(h, f, stamp, stored))
            == TotalSize(EntriesFor(h, stored)) + |MetadataFile(stamp, SortEntries(f, EntriesFor(h, stored)))|
  {
    hide MetadataFile, EntriesFor, METADATA_NAME;
    var payload := SortEntries(f, EntriesFor(h, stored));
    var first := EntryFor(h, Stored(METADATA_NAME, MetadataFile(stamp, payload)));
    SumPermuted(SortEntries(f, [first] + payload), [first] + payload, SizeOf());
    SumPermuted(payload, EntriesFor(h, stored), SizeOf());
    assert ([first] + payload)[1..] == payload;
  }

  lemma PublishedRestores(h: Digest.Hash, f: FoldTable, audit: Audit, stamp: Stamp, data: seq<FileAt>, snapshot: bytes,
                          dbRel: Path, free: nat)
    requires Managedlike(data) && NoFileClashes(data) && stamp.schemaVersion == SCHEMA_VERSION
    requires Transportable(h, f, stamp, data, snapshot) && RestoreTarget(f, data, dbRel)
    requires TotalSize(EntriesFor(h, Payloads(data, snapshot))) <= free && audit(snapshot, AssetsOf(DataMap(data)))
    ensures var stored := Payloads(data, snapshot);
            Restore(h, f, audit, Published(h, f, stamp, stored), Some(dbRel), free)
            == Ok(Restored(RestoredRoot(data, snapshot, dbRel), |data| + 1, TotalSize(EntriesFor(h, stored)),
                           h(ManifestFile(h, f, stamp, stored))))
  {
    hide Published, AllEntries, ManifestFile, Payloads, EntriesFor, AssetsOf, DataMap, TotalSize, Transportable,
      RestoreTarget, RestoredRoot, Restore, Managedlike, NoFileClashes, Load, Place, PayloadEntries, SortEntries, Join,
      MetadataFields, MetadataHeaderOk, TotalsOk, IsCanonical, Get;
    var stored := Payloads(data, snapshot);
    var t := Published(h, f, stamp, stored);
    PublishedPlaces(h, f, stamp, data, snapshot, dbRel);
    PublishedLoadsExactly(h, f, stamp, data, snapshot);
    PublishedTotals(h, f, stamp, data, snapshot);
    AuditSeesTheSame(f, data, snapshot, dbRel);
    TargetNotEmpty(f, data, dbRel);
    MetadataReads(stamp, |data| + 1, TotalSize(EntriesFor(h, stored)));
    HasDatabase(data, snapshot, dbRel);
    assert |stored| == |data| + 1;
    RestoreFrom(h, f, audit, t, dbRel, free, Load(h, f, t).value, RestoredRoot(data, snapshot, dbRel));
  }

  lemma TargetNotEmpty(f: FoldTable, data: seq<FileAt>, dbRel: Path)
    requires RestoreTarget(f, data, dbRel)
    ensures dbRel != []
  {
  }

  lemma HasDatabase(data: seq<FileAt>, snapshot: bytes, dbRel: Path)
    ensures Join(dbRel) in RestoredRoot(data, snapshot, dbRel) && RestoredRoot(data, snapshot, dbRel)[Join(dbRel)] == snapshot
  {
    hide Join, DataMap;
  }

  lemma RestoreFrom(h: Digest.Hash, f: FoldTable, audit: Audit, t: Tree, dbRel: Path, free: nat, loaded: Loaded, files: map<string, bytes>)
    requires dbRel != [] && Load(h, f, t) == Ok(loaded) && Get(loaded.metadata, "schema_version") == Some(Num(SCHEMA_VERSION))
    requires TotalSize(PayloadEntries(loaded.entries)) <= free
    requires Place(h, f, t, Join(dbRel), loaded.entries, map[], {}) == Ok(files)
    requires Join(dbRel) in files && audit(files[Join(dbRel)], AssetsOf(files))
    ensures Restore(h, f, audit, t, Some(dbRel), free)
            == Ok(Restored(files, |PayloadEntries(loaded.entries)|, TotalSize(PayloadEntries(loaded.entries)), loaded.sha))
  {
    hide Load, Place, TotalSize, PayloadEntries, AssetsOf, Join, Get;
  }

  lemma PublishedPlaces(h: Digest.Hash, f: FoldTable, stamp: Stamp, data: seq<FileAt>, snapshot: bytes, dbRel: Path)
    requires Managedlike(data) && NoFileClashes(data) && RestoreTarget(f, data, dbRel)
    requires Transportable(h, f, stamp, data, snapshot)
    ensures var stored := Payloads(data, snapshot);
            Place(h, f, Published(h, f, stamp, stored), Join(dbRel), AllEntries(h, f, stamp, stored), map[], {})
            == Ok(RestoredRoot(data, snapshot, dbRel))
  {
    var stored := Payloads(data, snapshot);
    var t, entries := Published(h, f, stamp, stored), AllEntries(h, f, stamp, stored);
    assert DataFoldsApart(f, data);
    hide Transportable, DataFoldsApart, Published, AllEntries, Payloads, Managedlike, NoFileClashes, RestoreTarget, RestoredRoot, Place, PlacedAs,
      Join, FoldsApart, Verified, Fits, AllSeparate, MANIFEST_NAME, HASH_NAME, WithMetadata, StoredDistinct, EntriesFor, ListsPaths;
    PayloadsDistinct(h, f, stamp, data, snapshot);
    PublishedEntriesVerify(h, f, stamp, stored);
    ManifestListsAll(h, f, stamp, stored);
    EntriesListPaths(h, f, stamp, data, snapshot);
    ListingConditions(f, data, entries, EntriesFor(h, WithMetadata(h, f, stamp, stored)));
    PublishedEntriesFit(h, f, stamp, t, data, snapshot, dbRel);
    PublishedEntriesSeparate(h, f, stamp, data, snapshot, dbRel);
    PlaceAll(h, f, t, Join(dbRel), entries, map[], {});
    PlacedIsRestoredRoot(h, f, stamp, data, snapshot, dbRel, Place(h, f, t, Join(dbRel), entries, map[], {}).value);
  }

  /** Read as files of the source tree: the restored root holds the kept files and the database, nothing else. */
  lemma RestoredFilesAreSourceFiles(f: FoldTable, source: Source, data: seq<FileAt>, dbRel: Path, p: Path, content: bytes)
    requires source.root.Dir? && WellFormed(source.root) && Managed(source.root, source.db) == Ok(data)
    requires RestoreTarget(f, data, dbRel) && p != [] && Clean(p)
    ensures var root := RestoredRoot(data, source.snapshot, dbRel);
            Join(p) in root && root[Join(p)] == content <==>
              if p == dbRel then content == source.snapshot
              else Lookup(source.root, p) == Some(content) && !Excluded(source.db, p)
    ensures forall name :: name in RestoredRoot(data, source.snapshot, dbRel) ==> exists q :: q != [] && Clean(q) && Join(q) == name
  {
    var root := RestoredRoot(data, source.snapshot, dbRel);
    NoFileClashesIn(source.root, source.db);
    ManagedFilesAreExact(source.root, source.db, p, content);
    RestoredRootHolds(f, data, source.snapshot, dbRel);
    assert dbRel != [] && Clean(dbRel);
    hide WellFormed, Managed, RestoreTarget, RestoredRoot, Lookup, Excluded, Join, Clean;
    forall i | 0 <= i <= |data| ensures TargetPath(data, dbRel, i) != [] && Clean(TargetPath(data, dbRel, i)) {
    }
    if Join(p) in root {
      var i :| 0 <= i <= |data| && TargetAt(data, dbRel, i) == Join(p);
      JoinInjective(TargetPath(data, dbRel, i), p);
    }
    if p == dbRel {
      assert TargetAt(data, dbRel, 0) == Join(p);
    } else if FileAt(p, content) in data {
      var k :| 0 <= k < |data| && data[k] == FileAt(p, content);
      assert TargetAt(data, dbRel, k + 1) == Join(p);
    }
    forall name | name in root ensures exists q :: q != [] && Clean(q) && Join(q) == name {
      var i :| 0 <= i <= |data| && TargetAt(data, dbRel, i) == name;
      assert Join(TargetPath(data, dbRel, i)) == name;
    }
  }

  function TargetPath(data: seq<FileAt>, dbRel: Path, i: nat): Path
    requires i <= |data|
  {
    if i == 0 then dbRel else data[i - 1].path
  }

  // -------------------------------------------------------------------- theorems

  /** A created backup loads again exactly when its names, counts and sizes can be transported. */
  lemma CreatedLoadsExactly(h: Digest.Hash, f: FoldTable, audit: Audit, stamp: Stamp, source: Source,
                            data: seq<FileAt>, t: Tree, result: BackupResult)
    requires source.root.Dir? && WellFormed(source.root) && CreatedFrom(h, f, audit, stamp, source, data, t, result)
    ensures Load(h, f, t).Ok? <==> Transportable(h, f, stamp, data, source.snapshot)
  {
    hide WellFormed, Managed, Created, Load, Transportable, Published, Managedlike, NoFileClashes, Payloads, ManifestFile, AllEntries;
    CreatedParts(h, f, audit, stamp, source, data, t, result);
    NoFileClashesIn(source.root, source.db);
    PublishedLoadsExactly(h, f, stamp, data, source.snapshot);
  }

  lemma CreatedIsTracked(h: Digest.Hash, f: FoldTable, audit: Audit, stamp: Stamp, source: Source,
                         data: seq<FileAt>, t: Tree, result: BackupResult)
    requires source.root.Dir? && WellFormed(source.root) && CreatedFrom(h, f, audit, stamp, source, data, t, result)
    requires Load(h, f, t).Ok?
    ensures var tracked := Tracked(Load(h, f, t).value.entries); tracked == t.files.Keys && METADATA_NAME in tracked
  {
    hide WellFormed, Managed, Created, Load, Transportable, Published, Managedlike, NoFileClashes, Payloads, ManifestFile, AllEntries,
      Tracked, METADATA_NAME, MANIFEST_NAME, HASH_NAME, WithMetadata, StoredDistinct;
    CreatedParts(h, f, audit, stamp, source, data, t, result);
    NoFileClashesIn(source.root, source.db);
    PublishedLoadsExactly(h, f, stamp, data, source.snapshot);
    PayloadsDistinct(h, f, stamp, data, source.snapshot);
    PublishedIsTracked(h, f, stamp, Payloads(data, source.snapshot));
  }

  lemma {:induction false} PlaceAgrees(h: Digest.Hash, f: FoldTable, t: Tree, u: Tree, dbAt: string, entries: seq<ManifestEntry>,
                                       placed: map<string, bytes>, keys: set<string>)
    requires forall e :: e in entries ==> e.path in t.files && e.path in u.files && t.files[e.path] == u.files[e.path]
    ensures Place(h, f, t, dbAt, entries, placed, keys) == Place(h, f, u, dbAt, entries, placed, keys)
  {
    hide Fold, Destination, Writable, Place, Verified, METADATA_NAME;
    if entries == [] {
      PlaceNothing(h, f, t, dbAt, placed, keys);
      PlaceNothing(h, f, u, dbAt, placed, keys);
    } else {
      assert forall e :: e in entries[1..] ==> e in entries;
      assert entries[0] in entries;
      var content := t.files[entries[0].path];
      PlaceHead(h, f, t, dbAt, entries, placed, keys, content);
      PlaceHead(h, f, u, dbAt, entries, placed, keys, content);
      VerifiedAgrees(h, t, u, entries[0]);
      PlaceAgrees(h, f, t, u, dbAt, entries[1..], placed, keys);
      if Destination(entries[0].path, dbAt).Some? {
        var to := Destination(entries[0].path, dbAt).value;
        PlaceAgrees(h, f, t, u, dbAt, entries[1..], placed[to := content], keys + {Fold(f, to)});
      }
    }
  }

  /** Placing begins with the first entry; what is left of it depends on the tree through one file. */
  lemma PlaceHead(h: Digest.Hash, f: FoldTable, t: Tree, dbAt: string, entries: seq<ManifestEntry>,
                  placed: map<string, bytes>, keys: set<string>, content: bytes)
    requires entries != [] && entries[0].path in t.files && t.files[entries[0].path] == content
    ensures Place(h, f, t, dbAt, entries, placed, keys)
            == if entries[0].path == METADATA_NAME then Place(h, f, t, dbAt, entries[1..], placed, keys)
               else if Destination(entries[0].path, dbAt).None? then Err(UnexpectedPayload)
               else
                 var to := Destination(entries[0].path, dbAt).value;
                 if Fold(f, to) == "" || Fold(f, to) in keys then Err(Collision)
                 else if !Writable(placed, to) then Err(Storage)
                 else if !Verified(h, t, entries[0]) then Err(FileMismatch)
                 else Place(h, f, t, dbAt, entries[1..], placed[to := content], keys + {Fold(f, to)})
  {
    hide Fold, Destination, Writable, Verified, METADATA_NAME;
  }

  lemma VerifiedAgrees(h: Digest.Hash, t: Tree, u: Tree, e: ManifestEntry)
    requires e.path in t.files && e.path in u.files && t.files[e.path] == u.files[e.path]
    ensures Verified(h, t, e) <==> Verified(h, u, e)
  {
  }

  lemma RestoreAgrees(h: Digest.Hash, f: FoldTable, audit: Audit, t: Tree, u: Tree, dbRel: Option<Path>, free: nat)
    requires Load(h, f, t).Ok? && Load(h, f, u) == Load(h, f, t)
    requires SameOn(Tracked(Load(h, f, t).value.entries), t, u)
    ensures Restore(h, f, audit, t, dbRel, free) == Restore(h, f, audit, u, dbRel, free)
  {
    hide Load, Place, Tracked, Join, Restore;
    var entries := Load(h, f, t).value.entries;
    forall e | e in entries ensures e.path in t.files && e.path in u.files && t.files[e.path] == u.files[e.path] {
      TrackedEntry(entries, e);
    }
    if dbRel.Some? {
      PlaceAgrees(h, f, t, u, Join(dbRel.value), entries, map[], {});
    }
    RestoreFollowsPlace(h, f, audit, t, u, dbRel, free);
  }

  /** What a restore answers depends on the tree only through the load and the placement. */
  lemma RestoreFollowsPlace(h: Digest.Hash, f: FoldTable, audit: Audit, t: Tree, u: Tree, dbRel: Option<Path>, free: nat)
    requires Load(h, f, t).Ok? && Load(h, f, u) == Load(h, f, t)
    requires dbRel.Some? ==>
               var dbAt, entries := Join(dbRel.value), Load(h, f, t).value.entries;
               Place(h, f, t, dbAt, entries, map[], {}) == Place(h, f, u, dbAt, entries, map[], {})
    ensures Restore(h, f, audit, t, dbRel, free) == Restore(h, f, audit, u, dbRel, free)
  {
    hide Load, Place, AssetsOf, Join, Get, PayloadEntries, TotalSize, EqualsNumber;
  }

  /**
   Tampering, exactly. Take a created backup that loads, and any tree with the same hash record
   (and no digest collision between the two). It loads if and only if it holds every file of the
   backup unchanged and nothing special, and every further file's name folds onto a name of the
   backup; restoring it then gives what restoring the backup gives.
   */
  lemma ChangedBackupIsExact(h: Digest.Hash, f: FoldTable, audit: Audit, stamp: Stamp, source: Source,
                             data: seq<FileAt>, t: Tree, result: BackupResult, u: Tree, dbRel: Option<Path>, free: nat)
    requires source.root.Dir? && WellFormed(source.root) && CreatedFrom(h, f, audit, stamp, source, data, t, result)
    requires Load(h, f, t).Ok? && SameOn({HASH_NAME}, t, u) && CollisionFreeFor(h, t, u)
    ensures Load(h, f, u).Ok? <==> !u.special && SameOn(t.files.Keys, t, u) && Covered(f, u.files.Keys, t.files.Keys)
    ensures Load(h, f, u).Ok? ==> Restore(h, f, audit, u, dbRel, free) == Restore(h, f, audit, t, dbRel, free)
  {
    hide WellFormed, CreatedFrom, Load, Restore, Tracked, Covered, CollisionFreeFor, METADATA_NAME, HASH_NAME;
    CreatedIsTracked(h, f, audit, stamp, source, data, t, result);
    ChangedBackupLoadsExactly(h, f, t, u);
    if Load(h, f, u).Ok? {
      RestoreAgrees(h, f, audit, t, u, dbRel, free);
    }
  }

  const CAPITALIZED := "Backup-metadata.json"

  lemma CapitalizedText()
    ensures CAPITALIZED == "B" + METADATA_NAME[1..] && METADATA_NAME == "b" + METADATA_NAME[1..]
  {
  }

  lemma CapitalFolds(f: FoldTable, rest: string)
    ensures Fold(f, "B" + rest) == Fold(f, "b" + rest)
  {
    assert ("B" + rest)[0] == 'B' && ("B" + rest)[1..] == rest;
    assert ("b" + rest)[0] == 'b' && ("b" + rest)[1..] == rest;
    assert f('B') == "b" && f('b') == "b";
  }

  lemma CapitalizedFolds(f: FoldTable)
    ensures Fold(f, CAPITALIZED) == Fold(f, METADATA_NAME)
  {
    hide Fold;
    CapitalizedText();
    CapitalFolds(f, METADATA_NAME[1..]);
  }

  /** A further file whose name folds onto a tracked one changes nothing the load looks at. */
  lemma AddedFileCovered(f: FoldTable, t: Tree, extra: string, known: string, content: bytes)
    requires extra !in t.files && known in t.files && Fold(f, extra) == Fold(f, known)
    ensures var u := t.(files := t.files[extra := content]);
            SameOn(t.files.Keys, t, u) && Covered(f, u.files.Keys, t.files.Keys)
  {
    hide Fold;
  }

  /** The exception is real: a file added under a capitalized metadata name goes unnoticed. */
  lemma AddedFileGoesUnnoticed(h: Digest.Hash, f: FoldTable, audit: Audit, stamp: Stamp, source: Source,
                               data: seq<FileAt>, t: Tree, result: BackupResult, content: bytes)
    requires source.root.Dir? && WellFormed(source.root) && CreatedFrom(h, f, audit, stamp, source, data, t, result)
    requires Load(h, f, t).Ok? && CAPITALIZED !in t.files
    ensures Load(h, f, t.(files := t.files[CAPITALIZED := content])) == Load(h, f, t)
  {
    hide WellFormed, CreatedFrom, Load, Tracked, METADATA_NAME, CAPITALIZED, Fold, SameOn, Covered;
    CreatedIsTracked(h, f, audit, stamp, source, data, t, result);
    CapitalizedFolds(f);
    AddedFileCovered(f, t, CAPITALIZED, METADATA_NAME, content);
    NotSpecial(h, f, t);
    IntactIsAccepted(h, f, t, t.(files := t.files[CAPITALIZED := content]));
  }

  lemma NotSpecial(h: Digest.Hash, f: FoldTable, t: Tree)
    requires Load(h, f, t).Ok?
    ensures !t.special
  {
    hide Load;
    LoadParts(h, f, t);
  }

  const SLASHED := "a\\b"

  lemma SlashedRoot(content: bytes)
    ensures var root, data := Dir([Entry(SLASHED, File(content))]), [FileAt([SLASHED], content)];
            WellFormed(root) && Managed(root, None) == Ok(data) && !PathTransportable(data[0].path)
  {
    assert '/' !in SLASHED && '\0' !in SLASHED && SLASHED[1] == '\\' && |SLASHED| == 3;
    assert !Volatile([SLASHED]) by {
      assert [SLASHED][0] == SLASHED && ["logs"][0] == "logs" && ["temporary"][0] == "temporary";
      assert |"logs"| == 4 && |"temporary"| == 9;
    }
    var entries := [Entry(SLASHED, File(content))];
    assert [] + [SLASHED] == [SLASHED] && Join([SLASHED]) == SLASHED;
    assert !Volatile([SLASHED]) && !DatabaseFile(None, [SLASHED]);
    assert WalkEntry(entries[0], [] + [SLASHED], None) == Ok([FileAt([SLASHED], content)]);
    assert entries[1..] == [] && Walk(entries[1..], [], None) == Ok([]);
    assert Walk(entries, [], None) == Ok([FileAt([SLASHED], content)] + []);
    assert [FileAt([SLASHED], content)] + [] == [FileAt([SLASHED], content)];
  }

  lemma SlashedAssets(content: bytes)
    ensures AssetsOf(DataMap([FileAt([SLASHED], content)])) == map[]
  {
    var data := [FileAt([SLASHED], content)];
    assert data[..0] == [] && DataMap(data[..0]) == map[];
    assert DataMap(data) == map[SLASHED := content];
    assert !StartsWith(SLASHED, "assets/");
  }

  /** A data root with one file, its name holding a backslash, is backed up; the backup is then refused. */
  lemma BackslashIsRefused(h: Digest.Hash, f: FoldTable, audit: Audit, stamp: Stamp, content: bytes, snapshot: bytes)
    requires stamp.schemaVersion == SCHEMA_VERSION && audit(snapshot, map[])
    ensures var created := Created(h, f, audit, stamp, Source(true, 0, Dir([Entry(SLASHED, File(content))]), None, snapshot));
            created.Ok? && Load(h, f, created.value.0).Err?
  {
    var source := Source(true, 0, Dir([Entry(SLASHED, File(content))]), None, snapshot);
    var data := [FileAt([SLASHED], content)];
    SlashedRoot(content);
    SlashedAssets(content);
    hide WellFormed, Managed, Load, Published, Payloads, ManifestFile, AllEntries, SLASHED, DataMap, AssetsOf, PathTransportable,
      DataFoldsApart, MetadataFile;
    var (t, result) := Created(h, f, audit, stamp, source).value;
    CreatedLoadsExactly(h, f, audit, stamp, source, data, t, result);
    assert !Transportable(h, f, stamp, data, snapshot);
  }
}
