/**
 Which published backups load again. The manifest lists exactly the payload and the metadata
 file, the recorded totals are those of the payload whatever order the sort left it in, and
 the load succeeds exactly when paths and sizes are within the limits that only the load
 checks; it then gives back what was written.
 */
module BackupRoundTrip {
  import opened Common
  import Digest
  import opened Json
  import opened JsonCanonical
  import opened Ordering
  import opened Paths
  import opened FileTree
  import opened BackupFormat
  import opened Backup
  import opened BackupTheorems

  // -------------------------------------------------------- the files published

  ghost predicate StoredDistinct(stored: seq<Stored>) {
    forall i, j :: 0 <= i < j < |stored| ==> stored[i].path != stored[j].path
  }

  ghost predicate Managedlike(data: seq<FileAt>) {
    PathsDistinct(data) && forall i :: 0 <= i < |data| ==> data[i].path != [] && Clean(data[i].path)
  }

  lemma {:induction false} AsMapHolds(stored: seq<Stored>)
    requires StoredDistinct(stored)
    ensures forall i :: 0 <= i < |stored| ==> stored[i].path in AsMap(stored) && AsMap(stored)[stored[i].path] == stored[i].content
    ensures forall p :: p in AsMap(stored) ==> exists i :: 0 <= i < |stored| && stored[i].path == p
  {
    if stored != [] {
      var front := stored[..|stored| - 1];
      AsMapHolds(front);
      forall p | p in AsMap(stored) ensures exists i :: 0 <= i < |stored| && stored[i].path == p {
        if p != Last(stored).path {
          assert p in AsMap(front);
          var i :| 0 <= i < |front| && front[i].path == p;
          assert stored[i].path == p;
        } else {
          assert stored[|stored| - 1].path == p;
        }
      }
    }
  }

  lemma PayloadNames(p: Path)
    ensures DataPath(p) != DATABASE_PAYLOAD && DataPath(p) != METADATA_NAME && DataPath(p) != MANIFEST_NAME && DataPath(p) != HASH_NAME
  {
    hide Join;
    assert DataPath(p)[0] == 'p' && DataPath(p)[12] == '/' && DATABASE_PAYLOAD[12] == 'b';
    assert METADATA_NAME[0] == 'b' && MANIFEST_NAME[0] == 'b' && HASH_NAME[0] == 'b';
  }

  lemma DataPathInjective(p: Path, q: Path)
    requires Clean(p) && Clean(q) && p != [] && q != [] && DataPath(p) == DataPath(q)
    ensures p == q
  {
    hide Join;
    var prefix := DATA_PREFIX + "/";
    assert Join(p) == DataPath(p)[|prefix|..] && Join(q) == DataPath(q)[|prefix|..];
    JoinInjective(p, q);
  }

  lemma ControlNamesDiffer()
    ensures METADATA_NAME != MANIFEST_NAME && METADATA_NAME != HASH_NAME && MANIFEST_NAME != HASH_NAME
    ensures DATABASE_PAYLOAD != METADATA_NAME && DATABASE_PAYLOAD != MANIFEST_NAME && DATABASE_PAYLOAD != HASH_NAME
  {
    assert METADATA_NAME[8] == 'e' && MANIFEST_NAME[8] == 'a' && HASH_NAME[8] == 'a';
    assert |MANIFEST_NAME| == 20 && |HASH_NAME| == 22;
    assert DATABASE_PAYLOAD[0] == 'p' && METADATA_NAME[0] == 'b' && MANIFEST_NAME[0] == 'b' && HASH_NAME[0] == 'b';
  }

  /** The metadata file joins the payload; the manifest lists them all. */
  function WithMetadata(h: Digest.Hash, f: FoldTable, stamp: Stamp, stored: seq<Stored>): seq<Stored> {
    stored + [Stored(METADATA_NAME, MetadataFile(stamp, SortEntries(f, EntriesFor(h, stored))))]
  }

  /** The path of the i-th file a backup stores. */
  function PathAt(data: seq<FileAt>, i: nat): string
    requires i < |data| + 2
  {
    if i == 0 then DATABASE_PAYLOAD else if i <= |data| then DataPath(data[i - 1].path) else METADATA_NAME
  }

  lemma PathsApart(data: seq<FileAt>, i: nat, j: nat)
    requires Managedlike(data) && i < j < |data| + 2
    ensures PathAt(data, i) != PathAt(data, j)
  {
    hide DataPath, DATABASE_PAYLOAD, METADATA_NAME, MANIFEST_NAME, HASH_NAME, Join;
    ControlNamesDiffer();
    if 1 <= i <= |data| { PayloadNames(data[i - 1].path); }
    if 1 <= j <= |data| { PayloadNames(data[j - 1].path); }
    if 1 <= i && j <= |data| && PathAt(data, i) == PathAt(data, j) {
      DataPathInjective(data[i - 1].path, data[j - 1].path);
    }
  }

  lemma NotAControlName(data: seq<FileAt>, i: nat)
    requires i < |data| + 2
    ensures PathAt(data, i) != MANIFEST_NAME && PathAt(data, i) != HASH_NAME
  {
    hide DataPath, DATABASE_PAYLOAD, METADATA_NAME, MANIFEST_NAME, HASH_NAME, Join;
    ControlNamesDiffer();
    if 1 <= i <= |data| { PayloadNames(data[i - 1].path); }
  }

  lemma StoredPathAt(h: Digest.Hash, f: FoldTable, stamp: Stamp, data: seq<FileAt>, snapshot: bytes)
    ensures |WithMetadata(h, f, stamp, Payloads(data, snapshot))| == |data| + 2
    ensures forall i :: 0 <= i < |data| + 2 ==> WithMetadata(h, f, stamp, Payloads(data, snapshot))[i].path == PathAt(data, i)
  {
    hide Payloads, PathAt, METADATA_NAME, MetadataFile, SortEntries, EntriesFor;
    var stored := Payloads(data, snapshot);
    forall i | 0 <= i < |data| + 2 ensures WithMetadata(h, f, stamp, stored)[i].path == PathAt(data, i) {
      if i <= |data| {
        PayloadPathAt(data, snapshot, i);
        assert WithMetadata(h, f, stamp, stored)[i] == stored[i];
      } else {
        PathAtEnd(data);
      }
    }
  }

  lemma PayloadPathAt(data: seq<FileAt>, snapshot: bytes, i: nat)
    requires i <= |data|
    ensures Payloads(data, snapshot)[i].path == PathAt(data, i)
  {
    hide DataPath, DATABASE_PAYLOAD;
  }

  lemma PayloadsDistinct(h: Digest.Hash, f: FoldTable, stamp: Stamp, data: seq<FileAt>, snapshot: bytes)
    requires Managedlike(data)
    ensures StoredDistinct(WithMetadata(h, f, stamp, Payloads(data, snapshot)))
    ensures forall s :: s in WithMetadata(h, f, stamp, Payloads(data, snapshot)) ==> s.path != MANIFEST_NAME && s.path != HASH_NAME
    ensures |WithMetadata(h, f, stamp, Payloads(data, snapshot))| == |data| + 2
    ensures forall i :: 0 <= i < |data| + 2 ==> WithMetadata(h, f, stamp, Payloads(data, snapshot))[i].path == PathAt(data, i)
  {
    hide MANIFEST_NAME, HASH_NAME, Payloads, PathAt, WithMetadata, Managedlike;
    StoredPathAt(h, f, stamp, data, snapshot);
    var stored := WithMetadata(h, f, stamp, Payloads(data, snapshot));
    forall i, j | 0 <= i < j < |stored| ensures stored[i].path != stored[j].path {
      PathsApart(data, i, j);
    }
    forall s | s in stored ensures s.path != MANIFEST_NAME && s.path != HASH_NAME {
      var i :| 0 <= i < |stored| && stored[i] == s;
      NotAControlName(data, i);
    }
  }

  /** The manifest lists exactly the payload and the metadata file. */
  lemma ManifestListsAll(h: Digest.Hash, f: FoldTable, stamp: Stamp, stored: seq<Stored>)
    ensures multiset(AllEntries(h, f, stamp, stored)) == multiset(EntriesFor(h, WithMetadata(h, f, stamp, stored)))
    ensures |AllEntries(h, f, stamp, stored)| == |stored| + 1
  {
    hide SortEntries, MetadataFile, METADATA_NAME;
    var payload := SortEntries(f, EntriesFor(h, stored));
    var meta := EntryFor(h, Stored(METADATA_NAME, MetadataFile(stamp, payload)));
    assert EntriesFor(h, WithMetadata(h, f, stamp, stored)) == EntriesFor(h, stored) + [meta];
    assert |multiset(AllEntries(h, f, stamp, stored))| == |AllEntries(h, f, stamp, stored)|;
    assert |multiset(EntriesFor(h, stored) + [meta])| == |stored| + 1;
  }

  lemma SameMembers<T>(a: seq<T>, b: seq<T>, x: T)
    requires multiset(a) == multiset(b)
    ensures x in a <==> x in b
  {
    assert x in a <==> x in multiset(a);
    assert x in b <==> x in multiset(b);
  }

  lemma PublishedIsMap(h: Digest.Hash, f: FoldTable, stamp: Stamp, stored: seq<Stored>)
    ensures var manifest := ManifestFile(h, f, stamp, stored);
            Published(h, f, stamp, stored)
            == Tree(AsMap(WithMetadata(h, f, stamp, stored))[MANIFEST_NAME := manifest][HASH_NAME := HashFile(h(manifest))], false)
  {
    hide ManifestFile, MetadataFile, SortEntries, EntriesFor, HashFile, METADATA_NAME, MANIFEST_NAME, HASH_NAME;
    var all := WithMetadata(h, f, stamp, stored);
    assert all[..|all| - 1] == stored;
  }

  lemma PublishedControlFiles(h: Digest.Hash, f: FoldTable, stamp: Stamp, stored: seq<Stored>)
    ensures var t := Published(h, f, stamp, stored);
            && !t.special && MANIFEST_NAME in t.files && t.files[MANIFEST_NAME] == ManifestFile(h, f, stamp, stored)
            && HASH_NAME in t.files && t.files[HASH_NAME] == HashFile(h(ManifestFile(h, f, stamp, stored)))
  {
    hide ManifestFile, HashFile, METADATA_NAME, MANIFEST_NAME, HASH_NAME, WithMetadata, Published, AsMap;
    ControlNamesDiffer();
    PublishedIsMap(h, f, stamp, stored);
  }

  lemma PublishedFiles(h: Digest.Hash, f: FoldTable, stamp: Stamp, stored: seq<Stored>)
    requires StoredDistinct(WithMetadata(h, f, stamp, stored))
    requires forall s :: s in WithMetadata(h, f, stamp, stored) ==> s.path != MANIFEST_NAME && s.path != HASH_NAME
    ensures var t := Published(h, f, stamp, stored);
            && (forall s :: s in WithMetadata(h, f, stamp, stored) ==> s.path in t.files && t.files[s.path] == s.content)
            && (forall p :: p in t.files ==>
                  p == MANIFEST_NAME || p == HASH_NAME || exists s :: s in WithMetadata(h, f, stamp, stored) && s.path == p)
  {
    hide ManifestFile, HashFile, METADATA_NAME, MANIFEST_NAME, HASH_NAME, WithMetadata, Published, AsMap;
    PublishedIsMap(h, f, stamp, stored);
    var all, t := WithMetadata(h, f, stamp, stored), Published(h, f, stamp, stored);
    AsMapHolds(all);
    forall s | s in all ensures s.path in t.files && t.files[s.path] == s.content {
      var i :| 0 <= i < |all| && all[i] == s;
      assert all[i].path in AsMap(all);
    }
    forall p | p in t.files
      ensures p == MANIFEST_NAME || p == HASH_NAME || exists s :: s in all && s.path == p
    {
      if p in AsMap(all) {
        var i :| 0 <= i < |all| && all[i].path == p;
        assert all[i] in all;
      }
    }
  }

  lemma ListedIsStored(h: Digest.Hash, f: FoldTable, stamp: Stamp, stored: seq<Stored>, e: ManifestEntry)
    ensures e in AllEntries(h, f, stamp, stored)
            <==> exists s :: s in WithMetadata(h, f, stamp, stored) && EntryFor(h, s) == e
  {
    hide AllEntries, WithMetadata, EntryFor;
    var all := WithMetadata(h, f, stamp, stored);
    ManifestListsAll(h, f, stamp, stored);
    SameMembers(AllEntries(h, f, stamp, stored), EntriesFor(h, all), e);
    if e in EntriesFor(h, all) {
      var i :| 0 <= i < |all| && EntriesFor(h, all)[i] == e;
      assert all[i] in all;
    }
    if s :| s in all && EntryFor(h, s) == e {
      var i :| 0 <= i < |all| && all[i] == s;
      assert EntriesFor(h, all)[i] == e;
    }
  }

  lemma PublishedEntriesVerify(h: Digest.Hash, f: FoldTable, stamp: Stamp, stored: seq<Stored>)
    requires StoredDistinct(WithMetadata(h, f, stamp, stored))
    requires forall s :: s in WithMetadata(h, f, stamp, stored) ==> s.path != MANIFEST_NAME && s.path != HASH_NAME
    ensures forall e :: e in AllEntries(h, f, stamp, stored) ==> Verified(h, Published(h, f, stamp, stored), e)
  {
    hide Published, AllEntries, WithMetadata, MANIFEST_NAME, HASH_NAME;
    PublishedFiles(h, f, stamp, stored);
    forall e | e in AllEntries(h, f, stamp, stored) ensures Verified(h, Published(h, f, stamp, stored), e) {
      ListedIsStored(h, f, stamp, stored, e);
    }
  }

  lemma PublishedIsTracked(h: Digest.Hash, f: FoldTable, stamp: Stamp, stored: seq<Stored>)
    requires StoredDistinct(WithMetadata(h, f, stamp, stored))
    requires forall s :: s in WithMetadata(h, f, stamp, stored) ==> s.path != MANIFEST_NAME && s.path != HASH_NAME
    ensures var t, entries := Published(h, f, stamp, stored), AllEntries(h, f, stamp, stored);
            && t.files.Keys == Tracked(entries) && METADATA_NAME in Tracked(entries)
            && exists k :: 0 <= k < |entries| && entries[k].path == METADATA_NAME
  {
    hide Published, AllEntries, MetadataFile, HashFile, METADATA_NAME, MANIFEST_NAME, HASH_NAME, Tracked, EntriesFor, ManifestFile;
    var t, entries, all := Published(h, f, stamp, stored), AllEntries(h, f, stamp, stored), WithMetadata(h, f, stamp, stored);
    PublishedControlFiles(h, f, stamp, stored);
    PublishedFiles(h, f, stamp, stored);
    TrackedKnown(entries);
    assert all[|stored|] in all && all[|stored|].path == METADATA_NAME;
    hide WithMetadata;
    forall s | s in all ensures s.path in Tracked(entries) && exists k :: 0 <= k < |entries| && entries[k].path == s.path {
      ListedIsStored(h, f, stamp, stored, EntryFor(h, s));
      TrackedEntry(entries, EntryFor(h, s));
      var k :| 0 <= k < |entries| && entries[k] == EntryFor(h, s);
    }
    forall p | p in Tracked(entries) ensures p in t.files {
      if e :| e in entries && e.path == p {
        ListedIsStored(h, f, stamp, stored, e);
      }
    }
  }

  lemma TrackedKnown(entries: seq<ManifestEntry>)
    ensures forall p :: p in Tracked(entries) ==> p == MANIFEST_NAME || p == HASH_NAME || exists e :: e in entries && e.path == p
    ensures MANIFEST_NAME in Tracked(entries) && HASH_NAME in Tracked(entries)
  {
    forall p | p in Tracked(entries) ensures p == MANIFEST_NAME || p == HASH_NAME || exists e :: e in entries && e.path == p {
      if k :| 0 <= k < |entries| && entries[k].path == p {
        assert entries[k] in entries;
      }
    }
  }

  // ------------------------------------------------------------- path conditions

  predicate PathTransportable(p: Path) {
    '\\' !in Join(p) && |DataPath(p)| <= MAX_PATH_CHARS
  }

  lemma PrefixNames()
    ensures Name("payload") && Name("data") && Name("database") && ':' !in "payload"
  {
  }

  lemma DatabaseNameIsName()
    ensures Name("control.sqlite3")
  {
  }

  lemma MetadataNameIsName()
    ensures Name(METADATA_NAME) && ':' !in METADATA_NAME && '\\' !in METADATA_NAME
  {
  }

  lemma PrefixHasNoBackslash()
    ensures '\\' !in DATA_PREFIX + "/"
  {
  }

  lemma CleanPrefix(p: Path)
    requires Clean(p) && p != []
    ensures Clean(["payload", "data"] + p) && Join(["payload", "data"] + p) == DataPath(p)
  {
    PrefixNames();
    hide Name;
    var q := ["payload", "data"] + p;
    assert q[1..] == ["data"] + p && (["data"] + p)[1..] == p;
    assert Join(["data"] + p) == "data" + ("/" + Join(p));
    assert Join(q) == "payload" + ("/" + ("data" + ("/" + Join(p))));
    assert DATA_PREFIX == "payload" + ("/" + "data");
  }

  lemma BackslashInData(p: Path)
    ensures '\\' in DataPath(p) <==> '\\' in Join(p)
  {
    PrefixHasNoBackslash();
    hide Join, DATA_PREFIX;
    assert DataPath(p) == (DATA_PREFIX + "/") + Join(p);
  }

  lemma DataPathValid(p: Path)
    requires Clean(p) && p != []
    ensures ValidRelative(DataPath(p)) <==> PathTransportable(p)
  {
    PrefixNames();
    CleanPrefix(p);
    BackslashInData(p);
    if PathTransportable(p) {
      hide Join, Clean, Name, ValidRelative, DataPath;
      var q := ["payload", "data"] + p;
      assert q[0] == "payload";
      JoinedIsValid(q);
    }
  }

  lemma MetadataPathValid()
    ensures ValidRelative(METADATA_NAME)
  {
    MetadataNameIsName();
    assert |METADATA_NAME| == 20 && Join([METADATA_NAME]) == METADATA_NAME;
    hide METADATA_NAME, Join, Name, ValidRelative;
    assert Clean([METADATA_NAME]);
    JoinedIsValid([METADATA_NAME]);
  }

  lemma DatabasePathText()
    ensures DATABASE_PAYLOAD == "payload" + ("/" + ("database" + ("/" + "control.sqlite3")))
  {
  }

  lemma JoinThree(a: string, b: string, c: string)
    ensures Join([a, b, c]) == a + ("/" + (b + ("/" + c)))
  {
    assert [a, b, c][1..] == [b, c] && [b, c][1..] == [c];
    assert Join([b, c]) == b + ("/" + Join([c]));
  }

  lemma DatabasePathJoined()
    ensures Join(["payload", "database", "control.sqlite3"]) == DATABASE_PAYLOAD
  {
    hide Join, DATABASE_PAYLOAD;
    JoinThree("payload", "database", "control.sqlite3");
    DatabasePathText();
  }

  lemma DatabasePathValid()
    ensures ValidRelative(DATABASE_PAYLOAD)
  {
    assert |DATABASE_PAYLOAD| == 32 && '\\' !in DATABASE_PAYLOAD;
    hide Name, ValidRelative, DATABASE_PAYLOAD, Join;
    PrefixNames();
    DatabaseNameIsName();
    DatabasePathJoined();
    var q := ["payload", "database", "control.sqlite3"];
    assert Clean(q);
    assert q[0] == "payload";
    JoinedIsValid(q);
  }

  lemma FoldedDataPath(f: FoldTable, p: Path)
    ensures Fold(f, DataPath(p)) == DATA_PREFIX + "/" + Fold(f, Join(p))
  {
    assert LowerAscii(DATA_PREFIX + "/");
    hide Fold;
    FoldBelow(f, DATA_PREFIX + "/", Join(p));
  }

  lemma FoldedDatabasePath(f: FoldTable)
    ensures Fold(f, DATABASE_PAYLOAD) == DATABASE_PAYLOAD
  {
    hide Fold, LowerAscii, DATABASE_PAYLOAD;
    DatabasePathIsLower();
    FoldLower(f, DATABASE_PAYLOAD);
  }

  lemma DatabasePathIsLower()
    ensures LowerAscii(DATABASE_PAYLOAD)
  {
  }

  lemma FoldedMetadataName(f: FoldTable)
    ensures Fold(f, METADATA_NAME) == METADATA_NAME
  {
    assert LowerAscii(METADATA_NAME);
    hide Fold, LowerAscii, METADATA_NAME;
    FoldLower(f, METADATA_NAME);
  }

  // -------------------------------------------------------------- which ones load

  /** Names, counts and sizes within what the reader admits. */
  ghost predicate Transportable(h: Digest.Hash, f: FoldTable, stamp: Stamp, data: seq<FileAt>, snapshot: bytes) {
    && (forall i :: 0 <= i < |data| ==> PathTransportable(data[i].path))
    && DataFoldsApart(f, data)
    && |data| + 2 <= MAX_ENTRIES
    && |ManifestFile(h, f, stamp, Payloads(data, snapshot))| <= MAX_MANIFEST_BYTES
    && |MetadataFile(stamp, SortEntries(f, EntriesFor(h, Payloads(data, snapshot))))| <= MAX_METADATA_BYTES
  }

  ghost predicate DataFoldsApart(f: FoldTable, data: seq<FileAt>) {
    forall i, j :: 0 <= i < j < |data| ==> Fold(f, Join(data[i].path)) != Fold(f, Join(data[j].path))
  }

  lemma FoldAt(f: FoldTable, data: seq<FileAt>, i: nat, j: nat)
    requires i < j < |data| + 2
    ensures Fold(f, PathAt(data, i)) == Fold(f, PathAt(data, j))
            <==> 1 <= i && j <= |data| && Fold(f, Join(data[i - 1].path)) == Fold(f, Join(data[j - 1].path))
  {
    hide Join, Fold;
    FoldedDatabasePath(f);
    FoldedMetadataName(f);
    if 1 <= i <= |data| { FoldedDataPath(f, data[i - 1].path); }
    if 1 <= j <= |data| { FoldedDataPath(f, data[j - 1].path); }
    if 1 <= i && j <= |data| {
      FoldedBelow(Fold(f, Join(data[i - 1].path)), Fold(f, Join(data[j - 1].path)));
    } else {
      FoldedApart(if 1 <= i <= |data| then Fold(f, Join(data[i - 1].path)) else if 1 <= j <= |data| then Fold(f, Join(data[j - 1].path)) else "");
    }
  }

  lemma FoldedBelow(a: string, b: string)
    ensures DATA_PREFIX + "/" + a == DATA_PREFIX + "/" + b <==> a == b
  {
    assert (DATA_PREFIX + "/" + a)[13..] == a && (DATA_PREFIX + "/" + b)[13..] == b;
  }

  lemma FoldedApart(a: string)
    ensures DATA_PREFIX + "/" + a != DATABASE_PAYLOAD && DATA_PREFIX + "/" + a != METADATA_NAME && DATABASE_PAYLOAD != METADATA_NAME
  {
    assert (DATA_PREFIX + "/" + a)[12] == '/' && DATABASE_PAYLOAD[12] == 'b';
    assert (DATA_PREFIX + "/" + a)[0] == 'p' && METADATA_NAME[0] == 'b' && DATABASE_PAYLOAD[0] == 'p';
  }

  /** The manifest entries before sorting: database, managed files, metadata. */
  ghost predicate ListsPaths(data: seq<FileAt>, entries: seq<ManifestEntry>) {
    && |entries| == |data| + 2
    && forall i :: 0 <= i < |entries| ==> entries[i].path == PathAt(data, i) && IsHex64(entries[i].sha)
  }

  lemma EntriesListPaths(h: Digest.Hash, f: FoldTable, stamp: Stamp, data: seq<FileAt>, snapshot: bytes)
    ensures ListsPaths(data, EntriesFor(h, WithMetadata(h, f, stamp, Payloads(data, snapshot))))
  {
    hide IsHex64, Payloads, MetadataFile, PathAt, WithMetadata;
    StoredPathAt(h, f, stamp, data, snapshot);
    var all := WithMetadata(h, f, stamp, Payloads(data, snapshot));
    forall i | 0 <= i < |all| ensures IsHex64(EntriesFor(h, all)[i].sha) {
      assert EntriesFor(h, all)[i].sha == h(all[i].content);
    }
  }

  lemma ListedFoldsApart(f: FoldTable, data: seq<FileAt>, entries: seq<ManifestEntry>)
    requires ListsPaths(data, entries)
    ensures FoldsApart(f, entries) <==> DataFoldsApart(f, data)
  {
    hide Fold, Join, PathAt, IsHex64;
    if DataFoldsApart(f, data) {
      forall i, j | 0 <= i < j < |entries| ensures Fold(f, entries[i].path) != Fold(f, entries[j].path) {
        FoldAt(f, data, i, j);
      }
    }
    if FoldsApart(f, entries) {
      forall i, j | 0 <= i < j < |data| ensures Fold(f, Join(data[i].path)) != Fold(f, Join(data[j].path)) {
        FoldAt(f, data, i + 1, j + 1);
        assert Fold(f, entries[i + 1].path) != Fold(f, entries[j + 1].path);
      }
    }
  }

  lemma FoldsApartPermuted(f: FoldTable, a: seq<ManifestEntry>, b: seq<ManifestEntry>)
    requires multiset(a) == multiset(b)
    ensures FoldsApart(f, a) <==> FoldsApart(f, b)
  {
    hide Fold;
    var same := (x: ManifestEntry, y: ManifestEntry) => SameFold(f, x, y);
    if FoldsApart(f, a) { ApartPermuted(a, b, same); FoldsFromApart(f, b, same); }
    if FoldsApart(f, b) { ApartPermuted(b, a, same); FoldsFromApart(f, a, same); }
  }

  lemma FoldsFromApart(f: FoldTable, a: seq<ManifestEntry>, same: (ManifestEntry, ManifestEntry) -> bool)
    requires Apart(a, same) && forall x, y :: same(x, y) == SameFold(f, x, y)
    ensures FoldsApart(f, a)
  {
    hide Fold;
    forall i, j | 0 <= i < j < |a| ensures Fold(f, a[i].path) != Fold(f, a[j].path) {
      assert !same(a[i], a[j]);
    }
  }

  lemma ValidAt(data: seq<FileAt>, i: nat)
    requires Managedlike(data) && i < |data| + 2
    ensures ValidRelative(PathAt(data, i)) <==> (1 <= i <= |data| ==> PathTransportable(data[i - 1].path))
  {
    hide ValidRelative, PathTransportable, Clean, DATABASE_PAYLOAD, METADATA_NAME;
    MetadataPathValid();
    DatabasePathValid();
    if 1 <= i <= |data| { DataPathValid(data[i - 1].path); }
  }

  lemma ListedPathsValid(data: seq<FileAt>, entries: seq<ManifestEntry>)
    requires Managedlike(data) && ListsPaths(data, entries)
    ensures (forall e :: e in entries ==> ValidRelative(e.path))
            <==> forall i :: 0 <= i < |data| ==> PathTransportable(data[i].path)
    ensures forall e :: e in entries ==> IsHex64(e.sha)
  {
    hide ValidRelative, PathTransportable, IsHex64, PathAt, Managedlike;
    forall i | 0 <= i < |entries|
      ensures ValidRelative(entries[i].path) <==> (1 <= i <= |data| ==> PathTransportable(data[i - 1].path))
    {
      ValidAt(data, i);
    }
    forall i | 0 <= i < |data| ensures ValidRelative(entries[i + 1].path) <==> PathTransportable(data[i].path) {
      assert entries[i + 1] in entries;
    }
    if forall e :: e in entries ==> ValidRelative(e.path) {
      forall i | 0 <= i < |data| ensures PathTransportable(data[i].path) {
        assert entries[i + 1] in entries;
      }
    }
  }

  lemma ReadListed(h: Digest.Hash, f: FoldTable, t: Tree, entries: seq<ManifestEntry>)
    requires forall e :: e in entries ==> Verified(h, t, e) && IsHex64(e.sha)
    ensures ReadEntries(h, f, t, EntryValues(entries), {}).Ok?
            <==> FoldsApart(f, entries) && forall e :: e in entries ==> ValidRelative(e.path)
    ensures ReadEntries(h, f, t, EntryValues(entries), {}).Ok? ==> ReadEntries(h, f, t, EntryValues(entries), {}) == Ok(entries)
  {
    hide ReadEntries, ValidRelative, IsHex64, Verified, Fold, EntryOf, EntryValue;
    var raws := EntryValues(entries);
    forall i | 0 <= i < |entries|
      ensures EntryOf(raws[i]) == if ValidRelative(entries[i].path) then Some(entries[i]) else None
    {
      assert entries[i] in entries;
      EntryValueReads(entries[i]);
    }
    ReadEntriesIsExact(h, f, t, raws, {});
    if ReadEntries(h, f, t, raws, {}).Ok? {
      assert ReadEntries(h, f, t, raws, {}).value == entries;
    }
    if FoldsApart(f, entries) && forall e :: e in entries ==> ValidRelative(e.path) {
      GoodEntriesAreRead(h, f, t, raws, {}, entries);
    }
  }

  /** The hash record and the manifest of a published tree, as the reader finds them. */
  lemma PublishedManifestReads(h: Digest.Hash, f: FoldTable, stamp: Stamp, stored: seq<Stored>)
    ensures var t, manifest := Published(h, f, stamp, stored), ManifestFile(h, f, stamp, stored);
            && HASH_NAME in t.files && ReadHashFile(t.files[HASH_NAME]) == Some(h(manifest))
            && MANIFEST_NAME in t.files && t.files[MANIFEST_NAME] == manifest
            && ReadJsonMapping(manifest, MAX_MANIFEST_BYTES)
               == if |manifest| <= MAX_MANIFEST_BYTES then Some(ManifestFields(AllEntries(h, f, stamp, stored))) else None
  {
    var entries := AllEntries(h, f, stamp, stored);
    assert ManifestFile(h, f, stamp, stored) == JsonFile(Obj(ManifestFields(entries)));
    PublishedControlFiles(h, f, stamp, stored);
    hide AllEntries, Published, ManifestFile, ManifestFields, JsonFile, HashFile, ReadHashFile, ReadJsonMapping, IsCanonical,
      ManifestHeaderOk, RawEntries, HASH_NAME, MANIFEST_NAME;
    ManifestReads(entries);
    JsonFileReads(ManifestFields(entries), MAX_MANIFEST_BYTES);
    HashFileReads(h(ManifestFile(h, f, stamp, stored)));
  }

  lemma EntriesLoadFrom(h: Digest.Hash, f: FoldTable, t: Tree, manifest: bytes, entries: seq<ManifestEntry>)
    requires HASH_NAME in t.files && ReadHashFile(t.files[HASH_NAME]) == Some(h(manifest))
    requires MANIFEST_NAME in t.files && t.files[MANIFEST_NAME] == manifest && entries != []
    requires ReadJsonMapping(manifest, MAX_MANIFEST_BYTES)
             == if |manifest| <= MAX_MANIFEST_BYTES then Some(ManifestFields(entries)) else None
    requires forall e :: e in entries ==> Verified(h, t, e) && IsHex64(e.sha)
    ensures LoadEntries(h, f, t).Ok? <==>
              && |manifest| <= MAX_MANIFEST_BYTES && |entries| <= MAX_ENTRIES
              && FoldsApart(f, entries) && forall e :: e in entries ==> ValidRelative(e.path)
    ensures LoadEntries(h, f, t).Ok? ==> LoadEntries(h, f, t) == Ok((h(manifest), entries))
  {
    hide ManifestFields, ReadHashFile, ReadJsonMapping, EntryValues, ReadEntries, LoadEntries, FoldsApart, Verified, IsHex64, ValidRelative,
      HASH_NAME, MANIFEST_NAME;
    LoadFollowsManifest(h, f, t, manifest, entries);
    ReadListed(h, f, t, entries);
  }

  /** Loading such a directory comes down to reading the manifest's entries. */
  lemma LoadFollowsManifest(h: Digest.Hash, f: FoldTable, t: Tree, manifest: bytes, entries: seq<ManifestEntry>)
    requires HASH_NAME in t.files && ReadHashFile(t.files[HASH_NAME]) == Some(h(manifest))
    requires MANIFEST_NAME in t.files && t.files[MANIFEST_NAME] == manifest && entries != []
    requires ReadJsonMapping(manifest, MAX_MANIFEST_BYTES)
             == if |manifest| <= MAX_MANIFEST_BYTES then Some(ManifestFields(entries)) else None
    ensures var read := ReadEntries(h, f, t, EntryValues(entries), {});
            && (LoadEntries(h, f, t).Ok? <==> |manifest| <= MAX_MANIFEST_BYTES && |entries| <= MAX_ENTRIES && read.Ok?)
            && (LoadEntries(h, f, t).Ok? ==> LoadEntries(h, f, t) == Ok((h(manifest), read.value)))
  {
    hide ManifestFields, ReadHashFile, ReadJsonMapping, ManifestHeaderOk, RawEntries, EntryValues, ReadEntries, LoadEntries, IsCanonical,
      HASH_NAME, MANIFEST_NAME;
    ManifestReads(entries);
    LoadUnfolds(h, f, t, ManifestFields(entries));
  }

  lemma LoadUnfolds(h: Digest.Hash, f: FoldTable, t: Tree, fields: seq<Field>)
    requires HASH_NAME in t.files && MANIFEST_NAME in t.files && ReadHashFile(t.files[HASH_NAME]) == Some(h(t.files[MANIFEST_NAME]))
    ensures var mapping := ReadJsonMapping(t.files[MANIFEST_NAME], MAX_MANIFEST_BYTES);
            && (mapping.None? ==> LoadEntries(h, f, t).Err?)
            && (mapping == Some(fields) && ManifestHeaderOk(fields) ==>
                  (LoadEntries(h, f, t).Ok? <==> RawEntries(fields).Some? && ReadEntries(h, f, t, RawEntries(fields).value, {}).Ok?)
                  && (LoadEntries(h, f, t).Ok? ==>
                        LoadEntries(h, f, t)
                        == Ok((h(t.files[MANIFEST_NAME]), ReadEntries(h, f, t, RawEntries(fields).value, {}).value))))
  {
    hide ReadHashFile, ReadJsonMapping, ManifestHeaderOk, RawEntries, ReadEntries, HASH_NAME, MANIFEST_NAME;
  }

  /** Sorting changes neither validity nor distinctness. */
  lemma ListingConditions(f: FoldTable, data: seq<FileAt>, entries: seq<ManifestEntry>, base: seq<ManifestEntry>)
    requires Managedlike(data) && ListsPaths(data, base) && multiset(entries) == multiset(base)
    ensures FoldsApart(f, entries) <==> DataFoldsApart(f, data)
    ensures (forall e :: e in entries ==> ValidRelative(e.path)) <==> forall i :: 0 <= i < |data| ==> PathTransportable(data[i].path)
    ensures forall e :: e in entries ==> IsHex64(e.sha)
  {
    hide Managedlike, ListsPaths, FoldsApart, DataFoldsApart, ValidRelative, PathTransportable, IsHex64;
    FoldsApartPermuted(f, entries, base);
    ListedFoldsApart(f, data, base);
    ListedPathsValid(data, base);
    forall e ensures e in entries <==> e in base {
      SameMembers(entries, base, e);
    }
  }

  lemma PublishedEntriesLoad(h: Digest.Hash, f: FoldTable, stamp: Stamp, data: seq<FileAt>, snapshot: bytes)
    requires Managedlike(data)
    ensures var stored := Payloads(data, snapshot);
            var t, entries := Published(h, f, stamp, stored), AllEntries(h, f, stamp, stored);
            && (LoadEntries(h, f, t).Ok? <==>
                  && DataFoldsApart(f, data) && (forall i :: 0 <= i < |data| ==> PathTransportable(data[i].path))
                  && |data| + 2 <= MAX_ENTRIES && |ManifestFile(h, f, stamp, stored)| <= MAX_MANIFEST_BYTES)
            && (LoadEntries(h, f, t).Ok? ==> LoadEntries(h, f, t) == Ok((h(ManifestFile(h, f, stamp, stored)), entries)))
  {
    hide AllEntries, Published, Payloads, WithMetadata, ManifestFile, ManifestFields, EntriesFor, ReadHashFile,
      ReadJsonMapping, PathTransportable, DataFoldsApart, FoldsApart, Managedlike, ListsPaths, Verified, IsHex64, ValidRelative,
      StoredDistinct, HASH_NAME, MANIFEST_NAME, LoadEntries;
    var stored := Payloads(data, snapshot);
    var t, entries := Published(h, f, stamp, stored), AllEntries(h, f, stamp, stored);
    PayloadsDistinct(h, f, stamp, data, snapshot);
    PublishedEntriesVerify(h, f, stamp, stored);
    ManifestListsAll(h, f, stamp, stored);
    EntriesListPaths(h, f, stamp, data, snapshot);
    ListingConditions(f, data, entries, EntriesFor(h, WithMetadata(h, f, stamp, stored)));
    PublishedManifestReads(h, f, stamp, stored);
    EntriesLoadFrom(h, f, t, ManifestFile(h, f, stamp, stored), entries);
  }

  // ---------------------------------------------------------------------- totals

  lemma {:induction false} PayloadCount(entries: seq<ManifestEntry>, e: ManifestEntry)
    ensures multiset(PayloadEntries(entries))[e] == if e.path != METADATA_NAME then multiset(entries)[e] else 0
  {
    hide METADATA_NAME;
    if entries != [] {
      PayloadCount(entries[1..], e);
      assert entries == [entries[0]] + entries[1..];
    }
  }

  lemma PayloadOfPermuted(entries: seq<ManifestEntry>, payload: seq<ManifestEntry>, meta: ManifestEntry)
    requires multiset(entries) == multiset(payload + [meta]) && meta.path == METADATA_NAME
    requires forall e :: e in payload ==> e.path != METADATA_NAME
    ensures multiset(PayloadEntries(entries)) == multiset(payload)
    ensures |PayloadEntries(entries)| == |payload| && TotalSize(PayloadEntries(entries)) == TotalSize(payload)
  {
    hide METADATA_NAME;
    forall e ensures multiset(PayloadEntries(entries))[e] == multiset(payload)[e] {
      PayloadCount(entries, e);
      if e.path == METADATA_NAME { assert e !in payload; }
    }
    SameSize(PayloadEntries(entries), payload);
    SumPermuted(PayloadEntries(entries), payload, SizeOf());
  }

  lemma PathAtEnd(data: seq<FileAt>)
    ensures PathAt(data, |data| + 1) == METADATA_NAME
  {
  }

  lemma ListingIsPayloadAndMetadata(h: Digest.Hash, f: FoldTable, stamp: Stamp, stored: seq<Stored>)
    ensures var payload, all := EntriesFor(h, stored), EntriesFor(h, WithMetadata(h, f, stamp, stored));
            |all| == |stored| + 1 && all == payload + [all[|stored|]]
  {
    hide MetadataFile, SortEntries, METADATA_NAME, EntryFor;
  }

  /** The listing is the payload's entries followed by the metadata's. */
  lemma ListingSplits(h: Digest.Hash, f: FoldTable, stamp: Stamp, data: seq<FileAt>, snapshot: bytes)
    requires Managedlike(data)
    ensures var stored := Payloads(data, snapshot);
            var payload, all := EntriesFor(h, stored), EntriesFor(h, WithMetadata(h, f, stamp, stored));
            && |all| == |data| + 2 && all == payload + [all[|data| + 1]] && all[|data| + 1].path == METADATA_NAME
            && forall e :: e in payload ==> e.path != METADATA_NAME
  {
    hide METADATA_NAME, DATABASE_PAYLOAD, DataPath, Managedlike, Payloads, EntriesFor, WithMetadata, PathAt, IsHex64;
    var stored := Payloads(data, snapshot);
    var payload, all := EntriesFor(h, stored), EntriesFor(h, WithMetadata(h, f, stamp, stored));
    ListingIsPayloadAndMetadata(h, f, stamp, stored);
    EntriesListPaths(h, f, stamp, data, snapshot);
    PathAtEnd(data);
    forall e | e in payload ensures e.path != METADATA_NAME {
      var i :| 0 <= i < |payload| && payload[i] == e;
      PathsApart(data, i, |data| + 1);
      assert all[i] == e;
    }
  }

  lemma PublishedTotals(h: Digest.Hash, f: FoldTable, stamp: Stamp, data: seq<FileAt>, snapshot: bytes)
    requires Managedlike(data)
    ensures var stored := Payloads(data, snapshot);
            var payload, listed := EntriesFor(h, stored), PayloadEntries(AllEntries(h, f, stamp, stored));
            && |listed| == |SortEntries(f, payload)| == |stored|
            && TotalSize(listed) == TotalSize(SortEntries(f, payload)) == TotalSize(payload)
            && multiset(listed) == multiset(payload)
  {
    hide AllEntries, SortEntries, EntriesFor, METADATA_NAME, Payloads, WithMetadata, Managedlike;
    var stored := Payloads(data, snapshot);
    var payload, entries := EntriesFor(h, stored), AllEntries(h, f, stamp, stored);
    ManifestListsAll(h, f, stamp, stored);
    ListingSplits(h, f, stamp, data, snapshot);
    PayloadOfPermuted(entries, payload, EntriesFor(h, WithMetadata(h, f, stamp, stored))[|data| + 1]);
    SameSize(SortEntries(f, payload), payload);
    SumPermuted(SortEntries(f, payload), payload, SizeOf());
  }

  /**
   A published backup loads again exactly when no managed file name holds a backslash, every
   path stays within 4096 characters, the paths are distinct under case folding, and the entry
   count, the manifest and the metadata stay within their limits. It then loads as what was
   written.
   */
  lemma PublishedLoadsExactly(h: Digest.Hash, f: FoldTable, stamp: Stamp, data: seq<FileAt>, snapshot: bytes)
    requires Managedlike(data)
    ensures var stored := Payloads(data, snapshot);
            var t := Published(h, f, stamp, stored);
            && (Load(h, f, t).Ok? <==> Transportable(h, f, stamp, data, snapshot))
            && (Load(h, f, t).Ok? ==>
                  Load(h, f, t).value == Loaded(h(ManifestFile(h, f, stamp, stored)), AllEntries(h, f, stamp, stored),
                    MetadataFields(stamp, |data| + 1, TotalSize(EntriesFor(h, stored)))))
  {
    var stored := Payloads(data, snapshot);
    hide LoadEntries, CheckLoaded, Published, AllEntries, Payloads, SortEntries, EntriesFor, MetadataFile, ManifestFile,
      MetadataFields, TotalSize, DataFoldsApart, PathTransportable, Managedlike;
    PublishedEntriesLoad(h, f, stamp, data, snapshot);
    PublishedChecks(h, f, stamp, data, snapshot);
  }

  lemma PublishedChecks(h: Digest.Hash, f: FoldTable, stamp: Stamp, data: seq<FileAt>, snapshot: bytes)
    requires Managedlike(data)
    ensures var stored := Payloads(data, snapshot);
            var sha, entries := h(ManifestFile(h, f, stamp, stored)), AllEntries(h, f, stamp, stored);
            CheckLoaded(f, Published(h, f, stamp, stored), sha, entries)
            == if |MetadataFile(stamp, SortEntries(f, EntriesFor(h, stored)))| <= MAX_METADATA_BYTES
               then Ok(Loaded(sha, entries, MetadataFields(stamp, |data| + 1, TotalSize(EntriesFor(h, stored)))))
               else Err(ControlFile)
  {
    var stored := Payloads(data, snapshot);
    var t, entries := Published(h, f, stamp, stored), AllEntries(h, f, stamp, stored);
    var payload := SortEntries(f, EntriesFor(h, stored));
    var fields := MetadataFields(stamp, |payload|, TotalSize(payload));
    assert MetadataFile(stamp, payload) == JsonFile(Obj(fields));
    assert !t.special;
    hide Published, AllEntries, Payloads, SortEntries, EntriesFor, MetadataFile, ManifestFile, MetadataFields, JsonFile,
      ReadJsonMapping, MetadataHeaderOk, TotalsOk, IsCanonical, WithMetadata, Tracked, METADATA_NAME, MANIFEST_NAME, HASH_NAME,
      Fold, FoldedKeys, PayloadEntries, TotalSize, StoredDistinct, CheckLoaded, Managedlike;
    PublishedTotals(h, f, stamp, data, snapshot);
    PayloadsDistinct(h, f, stamp, data, snapshot);
    PublishedIsTracked(h, f, stamp, stored);
    PublishedMetadata(h, f, stamp, stored);
    MetadataReads(stamp, |payload|, TotalSize(payload));
    JsonFileReads(fields, MAX_METADATA_BYTES);
    CheckPublished(f, t, h(ManifestFile(h, f, stamp, stored)), entries);
  }

  lemma PublishedMetadata(h: Digest.Hash, f: FoldTable, stamp: Stamp, stored: seq<Stored>)
    requires StoredDistinct(WithMetadata(h, f, stamp, stored))
    requires forall s :: s in WithMetadata(h, f, stamp, stored) ==> s.path != MANIFEST_NAME && s.path != HASH_NAME
    ensures var t := Published(h, f, stamp, stored);
            METADATA_NAME in t.files && t.files[METADATA_NAME] == MetadataFile(stamp, SortEntries(f, EntriesFor(h, stored)))
  {
    hide Published, MetadataFile, SortEntries, EntriesFor, METADATA_NAME, MANIFEST_NAME, HASH_NAME;
    PublishedFiles(h, f, stamp, stored);
    var all := WithMetadata(h, f, stamp, stored);
    assert all[|stored|] in all && all[|stored|].path == METADATA_NAME;
  }

  lemma CheckPublished(f: FoldTable, t: Tree, sha: string, entries: seq<ManifestEntry>)
    requires !t.special && t.files.Keys == Tracked(entries) && METADATA_NAME in t.files
    requires exists k :: 0 <= k < |entries| && entries[k].path == METADATA_NAME
    requires ReadJsonMapping(t.files[METADATA_NAME], MAX_METADATA_BYTES).Some? ==>
               var fields := ReadJsonMapping(t.files[METADATA_NAME], MAX_METADATA_BYTES).value;
               MetadataHeaderOk(fields) && TotalsOk(fields, |PayloadEntries(entries)|, TotalSize(PayloadEntries(entries)))
    ensures var fields := ReadJsonMapping(t.files[METADATA_NAME], MAX_METADATA_BYTES);
            CheckLoaded(f, t, sha, entries) == if fields.Some? then Ok(Loaded(sha, entries, fields.value)) else Err(ControlFile)
  {
    hide Fold, Tracked, ReadJsonMapping, METADATA_NAME, MetadataHeaderOk, TotalsOk, TotalSize, PayloadEntries, FoldedKeys;
    var k :| 0 <= k < |entries| && entries[k].path == METADATA_NAME;
    assert Fold(f, entries[k].path) in EntryKeys(f, entries);
  }
}
