/**
 When creating, loading and restoring succeed, and what is on the disk when they do, said of any
 source and of any tree, whoever wrote it.
 */
module BackupOutcomes {
  import opened Common
  import Digest
  import Utf8
  import opened Json
  import opened JsonCanonical
  import opened Paths
  import opened FileTree
  import opened BackupFormat
  import opened Backup
  import opened BackupTheorems
  import opened BackupRoundTrip
  import opened BackupRestores
  import opened BackupContents

  // ------------------------------------------------------------------------ creating

  lemma AssetText(p: Path)
    requires p != [] && Clean(p)
    ensures Join(p) == "assets" || StartsWith(Join(p), "assets/") <==> p[0] == "assets"
  {
    if p[0] == "assets" {
      if |p| > 1 { assert Join(p)[..7] == "assets/"; }
    } else {
      OutsideAssets([], [], p);
    }
  }

  /** The audit of a creation sees the kept files below `assets`, and no other. */
  lemma AuditedAssetsAreExact(root: Node, db: Option<Path>, p: Path, content: bytes)
    requires root.Dir? && WellFormed(root) && Managed(root, db).Ok? && p != [] && Clean(p)
    ensures var assets := AssetsOf(DataMap(Managed(root, db).value));
            Join(p) in assets && assets[Join(p)] == content <==> p[0] == "assets" && Lookup(root, p) == Some(content) && !LeftOut(db, p)
  {
    hide WellFormed, Managed, Lookup, LeftOut, DataMap, Join, Clean;
    var data := Managed(root, db).value;
    KeptFilesAreExact(root, db, p, content);
    NoFileClashesIn(root, db);
    AssetText(p);
    DataMapHolds(data);
    if FileAt(p, content) in data {
      var i :| 0 <= i < |data| && data[i] == FileAt(p, content);
      assert Join(data[i].path) in DataMap(data);
    }
    if Join(p) in DataMap(data) {
      var i :| 0 <= i < |data| && Join(data[i].path) == Join(p);
      JoinInjective(data[i].path, p);
      assert data[i] in data;
      assert data[i] == FileAt(p, data[i].content);
    }
  }

  /**
   A creation succeeds exactly when the database is ready at schema 11 with no asset commit pending,
   the data root is acceptable and the audit passes on the snapshot and the kept assets.
   */
  lemma CreationSucceedsExactly(h: Digest.Hash, f: FoldTable, audit: Audit, stamp: Stamp, source: Source)
    requires source.root.Dir?
    ensures Created(h, f, audit, stamp, source).Ok?
            <==> && source.ready && stamp.schemaVersion == 11 && source.pendingIntents == 0
                 && Managed(source.root, source.db).Ok?
                 && audit(source.snapshot, AssetsOf(DataMap(Managed(source.root, source.db).value)))
    ensures source.ready && stamp.schemaVersion == 11 && source.pendingIntents > 0
            ==> Created(h, f, audit, stamp, source) == Err(PendingIntents)
  {
    hide Managed, DataMap, AssetsOf, Published, AllEntries, ManifestFile, Payloads, TotalSize;
  }

  lemma CreatedNames()
    ensures DATABASE_PAYLOAD == "payload/database/control.sqlite3" && DATA_PREFIX + "/" == "payload/data/"
    ensures METADATA_NAME == "backup-metadata.json" && MANIFEST_NAME == "backup-manifest.json" && HASH_NAME == "backup-manifest.sha256"
  {
  }

  ghost predicate StoredAt(t: Tree, name: string, content: bytes) {
    name in t.files && t.files[name] == content
  }

  lemma PublishedHolds(h: Digest.Hash, f: FoldTable, stamp: Stamp, data: seq<FileAt>, snapshot: bytes)
    requires Managedlike(data)
    ensures var t := Published(h, f, stamp, Payloads(data, snapshot));
            && (forall i :: 0 <= i <= |data| ==> StoredAt(t, PathAt(data, i), ContentAt(data, snapshot, i)))
            && METADATA_NAME in t.files
            && (forall name :: name in t.files ==>
                  name == MANIFEST_NAME || name == HASH_NAME || exists i :: 0 <= i < |data| + 2 && PathAt(data, i) == name)
  {
    hide Payloads, Published, WithMetadata, PathAt, ContentAt, Managedlike, METADATA_NAME, MANIFEST_NAME, HASH_NAME, EntriesFor;
    var stored := Payloads(data, snapshot);
    var all := WithMetadata(h, f, stamp, stored);
    PayloadsDistinct(h, f, stamp, data, snapshot);
    PublishedFiles(h, f, stamp, stored);
    PathAtEnd(data);
    assert all[|data| + 1] in all;
    forall i | 0 <= i <= |data|
      ensures StoredAt(Published(h, f, stamp, stored), PathAt(data, i), ContentAt(data, snapshot, i))
    {
      StoredContent(h, f, stamp, data, snapshot, i);
      StoredIsWithMetadata(h, f, stamp, stored, i);
      PayloadPathAt(data, snapshot, i);
    }
    forall name | name in Published(h, f, stamp, stored).files && name != MANIFEST_NAME && name != HASH_NAME
      ensures exists i :: 0 <= i < |data| + 2 && PathAt(data, i) == name
    {
      var s :| s in all && s.path == name;
      var i :| 0 <= i < |all| && all[i] == s;
      assert PathAt(data, i) == name;
    }
  }

  lemma KeptIsStored(h: Digest.Hash, f: FoldTable, stamp: Stamp, data: seq<FileAt>, snapshot: bytes, p: Path, content: bytes)
    requires Managedlike(data) && p != [] && Clean(p)
    ensures StoredAt(Published(h, f, stamp, Payloads(data, snapshot)), DataPath(p), content) <==> FileAt(p, content) in data
  {
    hide Payloads, Published, DataPath, Clean, METADATA_NAME, MANIFEST_NAME, HASH_NAME, DATABASE_PAYLOAD;
    var t := Published(h, f, stamp, Payloads(data, snapshot));
    PublishedHolds(h, f, stamp, data, snapshot);
    PayloadNames(p);
    if FileAt(p, content) in data {
      var k :| 0 <= k < |data| && data[k] == FileAt(p, content);
      assert StoredAt(t, PathAt(data, k + 1), ContentAt(data, snapshot, k + 1));
    }
    if DataPath(p) in t.files {
      var i :| 0 <= i < |data| + 2 && PathAt(data, i) == DataPath(p);
      DataPathInjective(p, data[i - 1].path);
      assert StoredAt(t, PathAt(data, i), ContentAt(data, snapshot, i));
    }
  }

  /** The tree holds the kept files of the source below `prefix`. */
  ghost predicate HoldsKept(t: Tree, source: Source, prefix: string) {
    forall p, content :: p != [] && Clean(p) ==> HoldsAsKept(t, source, prefix, p, content)
  }

  ghost predicate HoldsAsKept(t: Tree, source: Source, prefix: string, p: Path, content: bytes) {
    StoredAt(t, prefix + Join(p), content) <==> Lookup(source.root, p) == Some(content) && !LeftOut(source.db, p)
  }

  ghost predicate IsBelow(name: string, prefix: string) {
    exists p :: p != [] && Clean(p) && name == prefix + Join(p)
  }

  lemma CreatedHoldsKeptAt(h: Digest.Hash, f: FoldTable, stamp: Stamp, source: Source, data: seq<FileAt>, p: Path, content: bytes)
    requires source.root.Dir? && WellFormed(source.root) && Managed(source.root, source.db) == Ok(data) && Managedlike(data)
    requires p != [] && Clean(p)
    ensures HoldsAsKept(Published(h, f, stamp, Payloads(data, source.snapshot)), source, DATA_PREFIX + "/", p, content)
  {
    hide WellFormed, Managed, Lookup, LeftOut, Join, Clean, DATA_PREFIX, Published, Payloads, Managedlike, StoredAt;
    KeptIsStored(h, f, stamp, data, source.snapshot, p, content);
    KeptFilesAreExact(source.root, source.db, p, content);
  }

  lemma CreatedHoldsKept(h: Digest.Hash, f: FoldTable, stamp: Stamp, source: Source, data: seq<FileAt>)
    requires source.root.Dir? && WellFormed(source.root) && Managed(source.root, source.db) == Ok(data)
    ensures HoldsKept(Published(h, f, stamp, Payloads(data, source.snapshot)), source, DATA_PREFIX + "/")
  {
    hide WellFormed, Managed, Lookup, LeftOut, Join, Clean, DATA_PREFIX, Published, Payloads, Managedlike, HoldsAsKept, NoFileClashes;
    NoFileClashesIn(source.root, source.db);
    forall p, content | p != [] && Clean(p)
      ensures HoldsAsKept(Published(h, f, stamp, Payloads(data, source.snapshot)), source, DATA_PREFIX + "/", p, content)
    {
      CreatedHoldsKeptAt(h, f, stamp, source, data, p, content);
    }
  }

  lemma FirstStored(data: seq<FileAt>, snapshot: bytes)
    ensures PathAt(data, 0) == DATABASE_PAYLOAD && ContentAt(data, snapshot, 0) == snapshot
  {
  }

  /** The snapshot, the metadata, or a kept file below the data prefix. */
  lemma StoredName(data: seq<FileAt>, i: nat)
    requires Managedlike(data) && i < |data| + 2
    ensures PathAt(data, i) == DATABASE_PAYLOAD || PathAt(data, i) == METADATA_NAME || IsBelow(PathAt(data, i), DATA_PREFIX + "/")
  {
    hide Join, Clean, METADATA_NAME, DATABASE_PAYLOAD, DATA_PREFIX;
    if 1 <= i <= |data| {
      ManagedPath(data, i - 1);
      assert PathAt(data, i) == DATA_PREFIX + "/" + Join(data[i - 1].path);
    }
  }

  lemma CreatedHoldsNoMore(h: Digest.Hash, f: FoldTable, stamp: Stamp, source: Source, data: seq<FileAt>)
    requires source.root.Dir? && WellFormed(source.root) && Managed(source.root, source.db) == Ok(data)
    ensures var t := Published(h, f, stamp, Payloads(data, source.snapshot));
            && StoredAt(t, DATABASE_PAYLOAD, source.snapshot) && METADATA_NAME in t.files
            && forall name :: name in t.files ==>
                 || name == DATABASE_PAYLOAD || name == METADATA_NAME || name == MANIFEST_NAME || name == HASH_NAME
                 || IsBelow(name, DATA_PREFIX + "/")
  {
    FirstStored(data, source.snapshot);
    hide WellFormed, Managed, METADATA_NAME, MANIFEST_NAME, HASH_NAME, DATABASE_PAYLOAD, DATA_PREFIX, Published, Payloads,
      Managedlike, NoFileClashes, StoredAt, PathAt, ContentAt, IsBelow;
    NoFileClashesIn(source.root, source.db);
    PublishedHolds(h, f, stamp, data, source.snapshot);
    forall name | name in Published(h, f, stamp, Payloads(data, source.snapshot)).files
      ensures name == DATABASE_PAYLOAD || name == METADATA_NAME || name == MANIFEST_NAME || name == HASH_NAME
              || IsBelow(name, DATA_PREFIX + "/")
    {
      if name != MANIFEST_NAME && name != HASH_NAME {
        var i :| 0 <= i < |data| + 2 && PathAt(data, i) == name;
        StoredName(data, i);
      }
    }
  }

  /** What a creation publishes: the snapshot, the kept files and three control files, by name. */
  lemma CreatedFilesAreExact(h: Digest.Hash, f: FoldTable, audit: Audit, stamp: Stamp, source: Source,
                             data: seq<FileAt>, t: Tree, result: BackupResult)
    requires source.root.Dir? && WellFormed(source.root) && CreatedFrom(h, f, audit, stamp, source, data, t, result)
    ensures StoredAt(t, "payload/database/control.sqlite3", source.snapshot) && HoldsKept(t, source, "payload/data/") && !t.special
    ensures "backup-metadata.json" in t.files && "backup-manifest.json" in t.files
    ensures StoredAt(t, "backup-manifest.sha256", Utf8.Encode(h(t.files["backup-manifest.json"]) + "\n"))
    ensures result.sha == h(t.files["backup-manifest.json"])
    ensures forall name :: name in t.files ==>
              || name == "payload/database/control.sqlite3" || name == "backup-metadata.json" || name == "backup-manifest.json"
              || name == "backup-manifest.sha256" || IsBelow(name, "payload/data/")
  {
    CreatedNames();
    hide WellFormed, Created, CreatedFrom, METADATA_NAME, MANIFEST_NAME, HASH_NAME, DATABASE_PAYLOAD, DATA_PREFIX, IsBelow, HoldsKept,
      Published, Payloads, Managed, StoredAt;
    ControlFilesAre(h, f, audit, stamp, source, data, t, result);
    CreatedHoldsKept(h, f, stamp, source, data);
    CreatedHoldsNoMore(h, f, stamp, source, data);
  }

  lemma ManagedPath(data: seq<FileAt>, k: nat)
    requires Managedlike(data) && k < |data|
    ensures data[k].path != [] && Clean(data[k].path)
  {
  }

  lemma ControlFilesAre(h: Digest.Hash, f: FoldTable, audit: Audit, stamp: Stamp, source: Source,
                        data: seq<FileAt>, t: Tree, result: BackupResult)
    requires source.root.Dir? && CreatedFrom(h, f, audit, stamp, source, data, t, result)
    ensures t == Published(h, f, stamp, Payloads(data, source.snapshot)) && Managed(source.root, source.db) == Ok(data)
    ensures !t.special && MANIFEST_NAME in t.files && result.sha == h(t.files[MANIFEST_NAME])
    ensures StoredAt(t, HASH_NAME, Utf8.Encode(h(t.files[MANIFEST_NAME]) + "\n"))
  {
    hide Created, Managed, Published, Payloads, ManifestFile, METADATA_NAME, MANIFEST_NAME, HASH_NAME;
    CreatedParts(h, f, audit, stamp, source, data, t, result);
    PublishedControlFiles(h, f, stamp, Payloads(data, source.snapshot));
  }

  // ------------------------------------------------------------------------- loading

  /** The value Python finds equal to the integer `n`: the number, the float, and for 0 and 1 the boolean. */
  predicate IsInteger(v: Option<Value>, n: int) {
    match v
    case Some(Num(m)) => m == n
    case Some(Float(negative, whole, scale)) => scale == Scale(Some("0"), None) && n == (if negative then 0 - whole else whole)
    case Some(Bool(b)) => (n == 1 && b) || (n == 0 && !b)
    case _ => false
  }

  lemma EqualsIntIsInteger(v: Option<Value>, n: int)
    ensures EqualsInt(v, n) <==> IsInteger(v, n)
  {
  }

  /** The hash record is the digest and a line end, and nothing else reads as that digest. */
  lemma HashFileIsWhole(raw: bytes, sha: string)
    requires ReadHashFile(raw) == Some(sha)
    ensures raw == Utf8.Encode(sha + "\n")
  {
    var text := sha + "\n";
    assert forall i :: 0 <= i < 64 ==> text[i] == sha[i] == raw[i] as char;
    EncodeAscii(text);
  }

  ghost predicate ManifestHeader(fields: seq<Field>) {
    && IsInteger(Get(fields, "format_version"), 1)
    && Get(fields, "algorithm") == Some(Str("sha256"))
    && Get(fields, "metadata_path") == Some(Str("backup-metadata.json"))
  }

  ghost predicate MetadataHeader(fields: seq<Field>) {
    && IsInteger(Get(fields, "format_version"), 1)
    && Get(fields, "data_payload_prefix") == Some(Str("payload/data"))
    && Get(fields, "database_payload_path") == Some(Str("payload/database/control.sqlite3"))
  }

  lemma ManifestHeaderMeans(fields: seq<Field>)
    ensures ManifestHeaderOk(fields) <==> ManifestHeader(fields)
  {
    hide Get, EqualsInt, IsInteger, EqualsText;
    EqualsIntIsInteger(Get(fields, "format_version"), 1);
    EqualTexts(Get(fields, "algorithm"), "sha256");
    EqualTexts(Get(fields, "metadata_path"), "backup-metadata.json");
  }

  lemma MetadataHeaderMeans(fields: seq<Field>)
    ensures MetadataHeaderOk(fields) <==> MetadataHeader(fields)
  {
    hide Get, EqualsInt, IsInteger, EqualsText;
    EqualsIntIsInteger(Get(fields, "format_version"), 1);
    EqualTexts(Get(fields, "data_payload_prefix"), "payload/data");
    EqualTexts(Get(fields, "database_payload_path"), "payload/database/control.sqlite3");
  }

  lemma TotalsMean(fields: seq<Field>, count: nat, total: nat)
    ensures TotalsOk(fields, count, total)
            <==> IsInteger(Get(fields, "payload_file_count"), count) && IsInteger(Get(fields, "payload_total_bytes"), total)
  {
    hide Get, EqualsInt, IsInteger;
    EqualsIntIsInteger(Get(fields, "payload_file_count"), count);
    EqualsIntIsInteger(Get(fields, "payload_total_bytes"), total);
  }

  ghost predicate ManifestListing(raw: bytes, count: nat) {
    && 1 <= count <= 1_000_000
    && exists fields, raws ::
         && ReadJsonMapping(raw, 67_108_864) == Some(fields) && ManifestHeader(fields)
         && Get(fields, "entries") == Some(Arr(raws)) && |raws| == count
  }

  ghost predicate MetadataOf(raw: bytes, metadata: seq<Field>, count: nat, total: nat) {
    && ReadJsonMapping(raw, 4_194_304) == Some(metadata) && MetadataHeader(metadata)
    && IsInteger(Get(metadata, "payload_file_count"), count) && IsInteger(Get(metadata, "payload_total_bytes"), total)
  }

  lemma ReadIsBounded(raw: bytes, maxBytes: nat)
    requires ReadJsonMapping(raw, maxBytes).Some?
    ensures |raw| <= maxBytes
  {
    hide Loads, Utf8.Decode;
  }

  lemma EqualTexts(v: Option<Value>, s: string)
    ensures EqualsText(v, Some(s)) <==> v == Some(Str(s))
  {
  }

  lemma ListingParts(h: Digest.Hash, f: FoldTable, t: Tree)
    requires LoadEntries(h, f, t).Ok?
    ensures MANIFEST_NAME in t.files && ReadJsonMapping(t.files[MANIFEST_NAME], MAX_MANIFEST_BYTES).Some?
    ensures var fields := ReadJsonMapping(t.files[MANIFEST_NAME], MAX_MANIFEST_BYTES).value;
            && ManifestHeaderOk(fields) && RawEntries(fields).Some?
            && ReadEntries(h, f, t, RawEntries(fields).value, {}) == Ok(LoadEntries(h, f, t).value.1)
  {
    hide ManifestHeaderOk, ReadJsonMapping, ReadHashFile, ReadEntries, RawEntries, HASH_NAME, MANIFEST_NAME;
  }

  lemma ListingLoaded(h: Digest.Hash, f: FoldTable, t: Tree)
    requires LoadEntries(h, f, t).Ok? && MANIFEST_NAME in t.files
    ensures ManifestListing(t.files[MANIFEST_NAME], |LoadEntries(h, f, t).value.1|)
  {
    hide LoadEntries, ManifestHeaderOk, ManifestHeader, ReadJsonMapping, ReadEntries, RawEntries, MANIFEST_NAME, EntryOf, Verified, FoldsApart,
      Fold, ManifestListing;
    ListingParts(h, f, t);
    var raw := t.files[MANIFEST_NAME];
    var fields := ReadJsonMapping(raw, MAX_MANIFEST_BYTES).value;
    ManifestHeaderMeans(fields);
    ReadEntriesIsExact(h, f, t, RawEntries(fields).value, {});
    ListingOf(raw, fields, RawEntries(fields).value);
  }

  lemma ListingOf(raw: bytes, fields: seq<Field>, raws: seq<Value>)
    requires ReadJsonMapping(raw, MAX_MANIFEST_BYTES) == Some(fields) && ManifestHeader(fields) && RawEntries(fields) == Some(raws)
    ensures ManifestListing(raw, |raws|)
  {
    hide ReadJsonMapping, ManifestHeader, Get;
  }

  lemma MetadataParts(h: Digest.Hash, f: FoldTable, t: Tree)
    requires Load(h, f, t).Ok?
    ensures var loaded := Load(h, f, t).value;
            && METADATA_NAME in t.files && ReadJsonMapping(t.files[METADATA_NAME], MAX_METADATA_BYTES) == Some(loaded.metadata)
            && MetadataHeaderOk(loaded.metadata)
            && TotalsOk(loaded.metadata, |PayloadEntries(loaded.entries)|, TotalSize(PayloadEntries(loaded.entries)))
  {
    hide LoadEntries, Fold, ReadJsonMapping, MetadataHeaderOk, TotalsOk, Tracked, PayloadEntries, TotalSize, EntryKeys, FoldedKeys,
      METADATA_NAME;
  }

  lemma MetadataIs(raw: bytes, metadata: seq<Field>, count: nat, total: nat)
    requires ReadJsonMapping(raw, MAX_METADATA_BYTES) == Some(metadata) && MetadataHeaderOk(metadata) && TotalsOk(metadata, count, total)
    ensures MetadataOf(raw, metadata, count, total)
  {
    hide ReadJsonMapping, MetadataHeader, MetadataHeaderOk, TotalsOk, IsInteger, Get;
    MetadataHeaderMeans(metadata);
    TotalsMean(metadata, count, total);
  }

  lemma MetadataLoaded(h: Digest.Hash, f: FoldTable, t: Tree)
    requires Load(h, f, t).Ok?
    ensures METADATA_NAME in t.files
    ensures var loaded := Load(h, f, t).value;
            MetadataOf(t.files[METADATA_NAME], loaded.metadata, |PayloadEntries(loaded.entries)|, TotalSize(PayloadEntries(loaded.entries)))
  {
    hide Load, METADATA_NAME, PayloadEntries, TotalSize, ReadJsonMapping, MetadataHeaderOk, TotalsOk, MetadataOf;
    MetadataParts(h, f, t);
    var loaded := Load(h, f, t).value;
    MetadataIs(t.files[METADATA_NAME], loaded.metadata, |PayloadEntries(loaded.entries)|, TotalSize(PayloadEntries(loaded.entries)));
  }

  lemma ControlFilesAreBounded(t: Tree, loaded: Loaded)
    requires MANIFEST_NAME in t.files && METADATA_NAME in t.files
    requires ManifestListing(t.files[MANIFEST_NAME], |loaded.entries|)
    requires MetadataOf(t.files[METADATA_NAME], loaded.metadata, |PayloadEntries(loaded.entries)|, TotalSize(PayloadEntries(loaded.entries)))
    ensures |t.files[MANIFEST_NAME]| <= 67_108_864 && |t.files[METADATA_NAME]| <= 4_194_304
  {
    hide ReadJsonMapping, ManifestHeader, MetadataHeader, MANIFEST_NAME, METADATA_NAME, PayloadEntries, TotalSize, IsInteger, Get;
    ReadIsBounded(t.files[MANIFEST_NAME], 67_108_864);
    ReadIsBounded(t.files[METADATA_NAME], 4_194_304);
  }

  /** What a load demands of the three control files. */
  lemma LoadDemands(h: Digest.Hash, f: FoldTable, t: Tree)
    requires Load(h, f, t).Ok?
    ensures "backup-manifest.json" in t.files && "backup-metadata.json" in t.files
    ensures StoredAt(t, "backup-manifest.sha256", Utf8.Encode(h(t.files["backup-manifest.json"]) + "\n"))
    ensures |t.files["backup-manifest.json"]| <= 67_108_864 && |t.files["backup-metadata.json"]| <= 4_194_304
    ensures var loaded := Load(h, f, t).value;
            && ManifestListing(t.files["backup-manifest.json"], |loaded.entries|)
            && MetadataOf(t.files["backup-metadata.json"], loaded.metadata,
                          |PayloadEntries(loaded.entries)|, TotalSize(PayloadEntries(loaded.entries)))
  {
    CreatedNames();
    hide Load, LoadEntries, ManifestListing, MetadataOf, METADATA_NAME, MANIFEST_NAME, HASH_NAME, ReadHashFile, ReadEntries, PayloadEntries,
      TotalSize, ReadJsonMapping, Fold;
    LoadParts(h, f, t);
    EntriesLoaded(h, f, t);
    HashFileIsWhole(t.files[HASH_NAME], Load(h, f, t).value.sha);
    ListingLoaded(h, f, t);
    MetadataLoaded(h, f, t);
    ControlFilesAreBounded(t, Load(h, f, t).value);
  }

  /** Every member of the metadata by its name. */
  lemma MetadataSays(stamp: Stamp, count: nat, total: nat)
    ensures var fields := MetadataFields(stamp, count, total);
            && |fields| == 10 && Get(fields, "application_version") == Some(Str(stamp.applicationVersion))
            && Get(fields, "consistency") == Some(Str("sqlite_begin_immediate_plus_online_backup"))
            && Get(fields, "created_at") == Some(Str(stamp.createdAt)) && Get(fields, "format_version") == Some(Num(1))
            && Get(fields, "data_payload_prefix") == Some(Str("payload/data"))
            && Get(fields, "database_payload_path") == Some(Str("payload/database/control.sqlite3"))
            && Get(fields, "payload_file_count") == Some(Num(count)) && Get(fields, "payload_total_bytes") == Some(Num(total))
            && Get(fields, "schema_version") == Some(Num(stamp.schemaVersion))
            && Get(fields, "volatile_paths_excluded") == Some(Arr([Str("logs"), Str("temporary"), Str("assets/.staging")]))
  {
    hide Get, Increasing;
    var fields := MetadataFields(stamp, count, total);
    MetadataIncreases(stamp, count, total);
    forall k | 0 <= k < 10 ensures Get(fields, fields[k].name) == Some(fields[k].value) { IncreasingGet(fields, k); }
    assert fields[0].name == "application_version" && fields[1].name == "consistency" && fields[2].name == "created_at";
    assert fields[3].name == "data_payload_prefix" && fields[4].name == "database_payload_path" && fields[5].name == "format_version";
    assert fields[6].name == "payload_file_count" && fields[7].name == "payload_total_bytes" && fields[8].name == "schema_version";
    assert fields[9].name == "volatile_paths_excluded";
  }

  // ----------------------------------------------------------------------- restoring

  lemma WritableBefore(placed: map<string, bytes>, to: string, content: bytes, to': string)
    requires Writable(placed[to := content], to')
    ensures Writable(placed, to') && !Clash(to, to') && to != to'
  {
    hide Clash;
    assert to in placed[to := content];
    assert forall q :: q in placed ==> q in placed[to := content];
  }

  lemma FitsBefore(h: Digest.Hash, f: FoldTable, t: Tree, dbAt: string, first: ManifestEntry, e: ManifestEntry,
                   placed: map<string, bytes>, keys: set<string>, to: string, content: bytes)
    requires Goes(dbAt, first, to) && Fits(h, f, t, dbAt, e, placed[to := content], keys + {Fold(f, to)})
    ensures Fits(h, f, t, dbAt, e, placed, keys) && Separate(f, dbAt, first, e)
  {
    hide Fold, Destination, Clash, Verified, Writable, Separate, METADATA_NAME;
    if e.path != METADATA_NAME {
      var to' := Destination(e.path, dbAt).value;
      WritableBefore(placed, to, content, to');
      assert Fold(f, to') !in keys + {Fold(f, to)};
      SeparateWhen(f, dbAt, first, e, to, to');
    } else {
      NotPayloadEither(f, dbAt, first, e);
    }
  }

  lemma SeparateWhen(f: FoldTable, dbAt: string, a: ManifestEntry, b: ManifestEntry, to: string, to': string)
    requires Goes(dbAt, a, to) && Goes(dbAt, b, to') && Fold(f, to) != Fold(f, to') && !Clash(to, to')
    ensures Separate(f, dbAt, a, b)
  {
    hide Fold, Destination, Clash, METADATA_NAME;
  }

  lemma NotPayloadEither(f: FoldTable, dbAt: string, a: ManifestEntry, b: ManifestEntry)
    requires b.path == METADATA_NAME
    ensures Separate(f, dbAt, a, b)
  {
    hide METADATA_NAME, Destination;
  }

  lemma SeparateFirst(f: FoldTable, dbAt: string, entries: seq<ManifestEntry>)
    requires entries != [] && AllSeparate(f, dbAt, entries[1..])
    requires forall e :: e in entries[1..] ==> Separate(f, dbAt, entries[0], e)
    ensures AllSeparate(f, dbAt, entries)
  {
    hide Separate;
    var rest := entries[1..];
    forall i, j | 0 <= i < j < |entries| ensures Separate(f, dbAt, entries[i], entries[j]) {
      assert entries[j] == rest[j - 1] && rest[j - 1] in rest;
      if i > 0 { assert entries[i] == rest[i - 1]; }
    }
  }

  lemma NotPayload(f: FoldTable, dbAt: string, first: ManifestEntry, e: ManifestEntry)
    requires first.path == METADATA_NAME
    ensures Separate(f, dbAt, first, e)
  {
    hide METADATA_NAME, Destination;
  }

  /** Only entries that fit and stay apart are placed: any other list is refused. */
  lemma {:induction false} PlacedOnlyIfSeparate(h: Digest.Hash, f: FoldTable, t: Tree, dbAt: string, entries: seq<ManifestEntry>,
                                                placed: map<string, bytes>, keys: set<string>)
    requires Place(h, f, t, dbAt, entries, placed, keys).Ok?
    ensures AllSeparate(f, dbAt, entries)
    ensures forall e :: e in entries ==> Fits(h, f, t, dbAt, e, placed, keys)
  {
    hide Place, Fits, Separate, Fold, Destination, Verified, Clash, Writable, METADATA_NAME;
    if entries != [] {
      PlaceStep(h, f, t, dbAt, entries, 0, placed, keys);
      assert entries[0..] == entries;
      var rest := entries[1..];
      if entries[0].path == METADATA_NAME {
        PlacedOnlyIfSeparate(h, f, t, dbAt, rest, placed, keys);
        forall e | e in rest ensures Separate(f, dbAt, entries[0], e) { NotPayload(f, dbAt, entries[0], e); }
        MetadataFits(h, f, t, dbAt, entries[0], placed, keys);
      } else {
        var to := Destination(entries[0].path, dbAt).value;
        FitsNow(h, f, t, dbAt, entries[0], placed, keys, to);
        var content := t.files[entries[0].path];
        PlacedOnlyIfSeparate(h, f, t, dbAt, rest, placed[to := content], keys + {Fold(f, to)});
        forall e | e in rest ensures Fits(h, f, t, dbAt, e, placed, keys) && Separate(f, dbAt, entries[0], e) {
          FitsBefore(h, f, t, dbAt, entries[0], e, placed, keys, to, content);
        }
      }
      SeparateFirst(f, dbAt, entries);
      assert forall e :: e in entries ==> e == entries[0] || e in rest;
    }
  }

  lemma MetadataFits(h: Digest.Hash, f: FoldTable, t: Tree, dbAt: string, e: ManifestEntry, placed: map<string, bytes>, keys: set<string>)
    requires e.path == METADATA_NAME
    ensures Fits(h, f, t, dbAt, e, placed, keys)
  {
    hide METADATA_NAME, Destination, Fold, Writable;
  }

  lemma FitsNow(h: Digest.Hash, f: FoldTable, t: Tree, dbAt: string, e: ManifestEntry, placed: map<string, bytes>, keys: set<string>, to: string)
    requires e.path != METADATA_NAME && Destination(e.path, dbAt) == Some(to) && Verified(h, t, e)
    requires Fold(f, to) != "" && Fold(f, to) !in keys && Writable(placed, to)
    ensures Fits(h, f, t, dbAt, e, placed, keys) && Goes(dbAt, e, to) && e.path in t.files
  {
    hide Fold, Destination, Writable, METADATA_NAME;
  }

  /** A payload path goes to the database's place, or below the root to what follows `payload/data/`. */
  lemma DestinationIsExact(path: string, dbAt: string, to: string)
    ensures Destination(path, dbAt) == Some(to)
            <==> || (path == "payload/database/control.sqlite3" && to == dbAt)
                 || (path == "payload/data" && to == ".")
                 || (path == "payload/data/" + to)
  {
    assert DATABASE_PAYLOAD == "payload/database/control.sqlite3" && DATA_PREFIX == "payload/data" && |DATA_PREFIX| == 12;
    assert DATABASE_PAYLOAD[12] == 'b' && |"payload/data/"| == 13;
    assert "payload/data/" == DATA_PREFIX + "/";
    if path == "payload/data/" + to {
      assert path[12] == '/' && path[13..] == to && path[..13] == "payload/data/";
    }
    if StartsWith(path, DATA_PREFIX + "/") {
      assert path == path[..13] + path[13..];
    }
  }

  /** Two destinations clash when one continues the other after a slash. */
  lemma ClashExactly(a: string, b: string)
    ensures Clash(a, b) <==> (exists rest :: b == a + "/" + rest) || exists rest :: a == b + "/" + rest
  {
    Continues(a, b);
    Continues(b, a);
  }

  lemma Continues(a: string, b: string)
    ensures StartsWith(b, a + "/") <==> exists rest :: b == a + "/" + rest
  {
    if StartsWith(b, a + "/") { assert b == a + "/" + b[|a| + 1..]; }
    if rest :| b == a + "/" + rest { assert (a + "/" + rest)[..|a| + 1] == a + "/"; }
  }

  /** Entries that can be placed on an empty root: a known destination each, and no two in each other's way. */
  ghost predicate Placeable(h: Digest.Hash, f: FoldTable, t: Tree, dbAt: string, entries: seq<ManifestEntry>) {
    AllSeparate(f, dbAt, entries) && forall e :: e in entries ==> Fits(h, f, t, dbAt, e, map[], {})
  }

  lemma PlacesExactly(h: Digest.Hash, f: FoldTable, t: Tree, dbAt: string, entries: seq<ManifestEntry>)
    ensures Place(h, f, t, dbAt, entries, map[], {}).Ok? <==> Placeable(h, f, t, dbAt, entries)
    ensures Place(h, f, t, dbAt, entries, map[], {}).Ok?
            ==> PlacedAs(t, dbAt, entries, map[], Place(h, f, t, dbAt, entries, map[], {}).value)
  {
    hide Place, PlacedAs, Fits, AllSeparate;
    if Place(h, f, t, dbAt, entries, map[], {}).Ok? { PlacedOnlyIfSeparate(h, f, t, dbAt, entries, map[], {}); }
    if Placeable(h, f, t, dbAt, entries) { PlaceAll(h, f, t, dbAt, entries, map[], {}); }
  }

  /**
   A restore succeeds exactly when the target is inside the root, the backup loads, is of schema 11
   and fits into the free space, its entries can be placed, and the audit passes on what was placed;
   it then leaves each payload entry at its destination and nothing else.
   */
  lemma RestoreSucceedsExactly(h: Digest.Hash, f: FoldTable, audit: Audit, t: Tree, dbRel: Option<Path>, free: nat)
    ensures Restore(h, f, audit, t, dbRel, free).Ok?
            <==> && dbRel.Some? && dbRel.value != [] && Load(h, f, t).Ok?
                 && var loaded, dbAt := Load(h, f, t).value, Join(dbRel.value);
                    && EqualsNumber(Get(loaded.metadata, "schema_version"), 11)
                    && TotalSize(PayloadEntries(loaded.entries)) <= free
                    && exists files ::
                         && Place(h, f, t, dbAt, loaded.entries, map[], {}) == Ok(files)
                         && dbAt in files && audit(files[dbAt], AssetsOf(files))
    ensures var r := Restore(h, f, audit, t, dbRel, free);
            r.Ok? ==> PlacedAs(t, Join(dbRel.value), Load(h, f, t).value.entries, map[], r.value.files)
                      && r.value.fileCount == |PayloadEntries(Load(h, f, t).value.entries)|
                      && r.value.totalBytes == TotalSize(PayloadEntries(Load(h, f, t).value.entries))
  {
    hide Load, Place, AssetsOf, Join, Get, PayloadEntries, TotalSize, EqualsNumber, PlacedAs, Placeable;
    if dbRel.Some? && Load(h, f, t).Ok? { PlacesExactly(h, f, t, Join(dbRel.value), Load(h, f, t).value.entries); }
  }
}
