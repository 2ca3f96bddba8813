/** Creating, verifying and restoring a backup directory. */
module Backup {
  /*
   A backup directory is the map from POSIX relative paths to file contents, plus whether it holds
   any link or special file. Hash, case folding, and the database-and-assets audit are parameters;
   the audit reads the database and the files below `assets`.
   */

  import opened Common
  import Digest
  import opened Json
  import opened JsonCanonical
  import opened Ordering
  import opened Paths
  import opened FileTree
  import opened BackupFormat

  datatype Tree = Tree(files: map<string, bytes>, special: bool)

  type Audit = (bytes, map<string, bytes>) -> bool

  datatype Fault =
    | NotReady | SchemaUnsupported | PendingIntents | WalkFailed(error: WalkError) | AuditFailed
    | HashRecord | ManifestHash | ControlFile | Header | EntryCount | EntryInvalid | DuplicatePath | FileMismatch
    | MetadataUncovered | FilesDiffer | MetadataInvalid | TotalsInvalid
    | NotInside | NoSpace | UnexpectedPayload | Collision | Storage

  function FoldedKeys(f: FoldTable, names: set<string>): set<string> {
    set p | p in names :: Fold(f, p)
  }

  /** The files the audit looks at. */
  function AssetsOf(files: map<string, bytes>): map<string, bytes> {
    map p | p in files && (p == "assets" || StartsWith(p, "assets/")) :: files[p]
  }

  // --------------------------------------------------------------------- create

  datatype Stored = Stored(path: string, content: bytes)

  function EntryFor(h: Digest.Hash, s: Stored): ManifestEntry {
    ManifestEntry(s.path, |s.content|, h(s.content))
  }

  function EntriesFor(h: Digest.Hash, stored: seq<Stored>): (r: seq<ManifestEntry>)
    ensures |r| == |stored|
  {
    seq(|stored|, i requires 0 <= i < |stored| => EntryFor(h, stored[i]))
  }

  function DataPath(p: Path): string {
    DATA_PREFIX + "/" + Join(p)
  }

  /** The payload in the order it is copied: the database snapshot, then the managed files. */
  function Payloads(data: seq<FileAt>, snapshot: bytes): (r: seq<Stored>)
    ensures |r| == |data| + 1
  {
    [Stored(DATABASE_PAYLOAD, snapshot)]
    + seq(|data|, i requires 0 <= i < |data| => Stored(DataPath(data[i].path), data[i].content))
  }

  function AsMap(stored: seq<Stored>): map<string, bytes> {
    if stored == [] then map[] else AsMap(stored[..|stored| - 1])[Last(stored).path := Last(stored).content]
  }

  /** The managed files as they lie below the data root. */
  function DataMap(data: seq<FileAt>): map<string, bytes> {
    if data == [] then map[] else DataMap(data[..|data| - 1])[Join(Last(data).path) := Last(data).content]
  }

  function ByFold(f: FoldTable): (ManifestEntry, ManifestEntry) -> bool {
    (a: ManifestEntry, b: ManifestEntry) => AtMost(Fold(f, a.path), Fold(f, b.path))
  }

  function SortEntries(f: FoldTable, entries: seq<ManifestEntry>): (r: seq<ManifestEntry>)
    ensures multiset(r) == multiset(entries)
  {
    Sorted(entries, ByFold(f))
  }

  function SizeOf(): ManifestEntry -> nat {
    (e: ManifestEntry) => e.size
  }

  function TotalSize(entries: seq<ManifestEntry>): nat {
    Sum(entries, SizeOf())
  }

  function MetadataFile(stamp: Stamp, payload: seq<ManifestEntry>): bytes {
    JsonFile(Obj(MetadataFields(stamp, |payload|, TotalSize(payload))))
  }

  /** All manifest entries of a backup of `stored`, in manifest order. */
  function AllEntries(h: Digest.Hash, f: FoldTable, stamp: Stamp, stored: seq<Stored>): seq<ManifestEntry> {
    var payload := SortEntries(f, EntriesFor(h, stored));
    SortEntries(f, [EntryFor(h, Stored(METADATA_NAME, MetadataFile(stamp, payload)))] + payload)
  }

  function ManifestFile(h: Digest.Hash, f: FoldTable, stamp: Stamp, stored: seq<Stored>): bytes {
    JsonFile(Obj(ManifestFields(AllEntries(h, f, stamp, stored))))
  }

  /** The published directory. */
  function Published(h: Digest.Hash, f: FoldTable, stamp: Stamp, stored: seq<Stored>): Tree {
    var payload := SortEntries(f, EntriesFor(h, stored));
    var manifest := ManifestFile(h, f, stamp, stored);
    Tree(AsMap(stored)[METADATA_NAME := MetadataFile(stamp, payload)]
           [MANIFEST_NAME := manifest][HASH_NAME := HashFile(h(manifest))], false)
  }

  datatype BackupResult = BackupResult(schemaVersion: int, fileCount: nat, totalBytes: nat, sha: string)

  datatype Source = Source(ready: bool, pendingIntents: nat, root: Node, db: Option<Path>, snapshot: bytes)

  /** `create_backup`, said in one expression. */
  function Created(h: Digest.Hash, f: FoldTable, audit: Audit, stamp: Stamp, source: Source): Result<(Tree, BackupResult), Fault>
    requires source.root.Dir?
  {
    if !source.ready then Err(NotReady)
    else if stamp.schemaVersion != SCHEMA_VERSION then Err(SchemaUnsupported)
    else if source.pendingIntents != 0 then Err(PendingIntents)
    else
      match Managed(source.root, source.db)
      case Err(e) => Err(WalkFailed(e))
      case Ok(data) =>
        if !audit(source.snapshot, AssetsOf(DataMap(data))) then Err(AuditFailed)
        else
          var stored := Payloads(data, source.snapshot);
          var entries := AllEntries(h, f, stamp, stored);
          Ok((Published(h, f, stamp, stored),
              BackupResult(stamp.schemaVersion, |entries|, TotalSize(entries), h(ManifestFile(h, f, stamp, stored)))))
  }

  method CopyPayload(h: Digest.Hash, data: seq<FileAt>, snapshot: bytes)
    returns (files: map<string, bytes>, payload: seq<ManifestEntry>)
    ensures files == AsMap(Payloads(data, snapshot)) && payload == EntriesFor(h, Payloads(data, snapshot))
  {
    hide DataPath;
    ghost var stored := Payloads(data, snapshot);
    files := map[DATABASE_PAYLOAD := snapshot];
    payload := [EntryFor(h, Stored(DATABASE_PAYLOAD, snapshot))];
    assert stored[..1] == [Stored(DATABASE_PAYLOAD, snapshot)] && stored[..1][..0] == [];
    for k := 0 to |data|
      invariant files == AsMap(stored[..k + 1])
      invariant payload == EntriesFor(h, stored[..k + 1])
    {
      var copy := Stored(DataPath(data[k].path), data[k].content);
      assert stored[..k + 2][..k + 1] == stored[..k + 1] && Last(stored[..k + 2]) == copy;
      files := files[copy.path := copy.content];
      payload := payload + [EntryFor(h, copy)];
    }
    assert stored[..|data| + 1] == stored;
  }

  method CreateBackup(h: Digest.Hash, f: FoldTable, audit: Audit, stamp: Stamp, source: Source)
    returns (r: Result<(Tree, BackupResult), Fault>)
    requires source.root.Dir?
    ensures r == Created(h, f, audit, stamp, source)
  {
    hide Fold, SortEntries, JsonFile, Walk, HashFile, Payloads, AsMap, EntriesFor, TotalSize, DataMap, AssetsOf, ManifestFields,
      MetadataFile;
    if !source.ready {
      return Err(NotReady);
    }
    if stamp.schemaVersion != SCHEMA_VERSION {
      return Err(SchemaUnsupported);
    }
    if source.pendingIntents != 0 {
      return Err(PendingIntents);
    }
    var walked := Managed(source.root, source.db);
    if walked.Err? {
      return Err(WalkFailed(walked.error));
    }
    var files, payload := CopyPayload(h, walked.value, source.snapshot);
    if !audit(source.snapshot, AssetsOf(DataMap(walked.value))) {
      return Err(AuditFailed);
    }
    payload := SortEntries(f, payload);
    var metadata := MetadataFile(stamp, payload);
    files := files[METADATA_NAME := metadata];
    var entries := SortEntries(f, [EntryFor(h, Stored(METADATA_NAME, metadata))] + payload);
    var manifest := JsonFile(Obj(ManifestFields(entries)));
    var sha := h(manifest);
    files := files[MANIFEST_NAME := manifest][HASH_NAME := HashFile(sha)];
    return Ok((Tree(files, false), BackupResult(stamp.schemaVersion, |entries|, TotalSize(entries), sha)));
  }

  // ------------------------------------------------------------ load and verify

  datatype Loaded = Loaded(sha: string, entries: seq<ManifestEntry>, metadata: seq<Field>)

  predicate Verified(h: Digest.Hash, t: Tree, e: ManifestEntry) {
    e.path in t.files && |t.files[e.path]| == e.size && h(t.files[e.path]) == e.sha
  }

  function ReadEntries(h: Digest.Hash, f: FoldTable, t: Tree, raws: seq<Value>, seen: set<string>): Result<seq<ManifestEntry>, Fault> {
    if raws == [] then Ok([])
    else if EntryOf(raws[0]).None? then Err(EntryInvalid)
    else
      var e := EntryOf(raws[0]).value;
      if Fold(f, e.path) in seen then Err(DuplicatePath)
      else if !Verified(h, t, e) then Err(FileMismatch)
      else
        var rest := ReadEntries(h, f, t, raws[1..], seen + {Fold(f, e.path)});
        if rest.Err? then rest else Ok([e] + rest.value)
  }

  function EntryKeys(f: FoldTable, entries: seq<ManifestEntry>): set<string> {
    set k | 0 <= k < |entries| :: Fold(f, entries[k].path)
  }

  /** The entries other than the metadata's own. */
  function PayloadEntries(entries: seq<ManifestEntry>): seq<ManifestEntry> {
    if entries == [] then []
    else (if entries[0].path != METADATA_NAME then [entries[0]] else []) + PayloadEntries(entries[1..])
  }

  /** The files a manifest vouches for, its own two included. */
  function Tracked(entries: seq<ManifestEntry>): set<string> {
    (set k | 0 <= k < |entries| :: entries[k].path) + {MANIFEST_NAME, HASH_NAME}
  }

  /** The checks after the entries were read. */
  function CheckLoaded(f: FoldTable, t: Tree, sha: string, entries: seq<ManifestEntry>): Result<Loaded, Fault> {
    if Fold(f, METADATA_NAME) !in EntryKeys(f, entries) then Err(MetadataUncovered)
    else if t.special || FoldedKeys(f, t.files.Keys) != FoldedKeys(f, Tracked(entries)) then Err(FilesDiffer)
    else if METADATA_NAME !in t.files then Err(ControlFile)
    else
      match ReadJsonMapping(t.files[METADATA_NAME], MAX_METADATA_BYTES)
      case None => Err(ControlFile)
      case Some(metadata) =>
        if !MetadataHeaderOk(metadata) then Err(MetadataInvalid)
        else if !TotalsOk(metadata, |PayloadEntries(entries)|, TotalSize(PayloadEntries(entries))) then Err(TotalsInvalid)
        else Ok(Loaded(sha, entries, metadata))
  }

  /** The hash record and the entries the manifest lists, each verified. */
  function LoadEntries(h: Digest.Hash, f: FoldTable, t: Tree): Result<(string, seq<ManifestEntry>), Fault> {
    if HASH_NAME !in t.files || ReadHashFile(t.files[HASH_NAME]).None? then Err(HashRecord)
    else
      var sha := ReadHashFile(t.files[HASH_NAME]).value;
      if MANIFEST_NAME !in t.files || h(t.files[MANIFEST_NAME]) != sha then Err(ManifestHash)
      else
        match ReadJsonMapping(t.files[MANIFEST_NAME], MAX_MANIFEST_BYTES)
        case None => Err(ControlFile)
        case Some(fields) =>
          if !ManifestHeaderOk(fields) then Err(Header)
          else if RawEntries(fields).None? then Err(EntryCount)
          else
            match ReadEntries(h, f, t, RawEntries(fields).value, {})
            case Err(e) => Err(e)
            case Ok(entries) => Ok((sha, entries))
  }

  /** `_load_and_verify_backup`, said in one expression. */
  function Load(h: Digest.Hash, f: FoldTable, t: Tree): Result<Loaded, Fault> {
    match LoadEntries(h, f, t)
    case Err(e) => Err(e)
    case Ok((sha, entries)) => CheckLoaded(f, t, sha, entries)
  }

  lemma ReadStep(h: Digest.Hash, f: FoldTable, t: Tree, raws: seq<Value>, k: nat, seen: set<string>)
    requires k < |raws|
    ensures var raw, r := EntryOf(raws[k]), ReadEntries(h, f, t, raws[k..], seen);
            if raw.None? then r == Err(EntryInvalid)
            else
              var key := Fold(f, raw.value.path);
              if key in seen then r == Err(DuplicatePath)
              else if !Verified(h, t, raw.value) then r == Err(FileMismatch)
              else
                var rest := ReadEntries(h, f, t, raws[k + 1..], seen + {key});
                r == if rest.Err? then rest else Ok([raw.value] + rest.value)
  {
    hide EntryOf, Fold, Verified;
    assert raws[k..][0] == raws[k] && raws[k..][1..] == raws[k + 1..];
  }

  /** What the entries read so far and the outcome of the rest make together. */
  function Joined(entries: seq<ManifestEntry>, rest: Result<seq<ManifestEntry>, Fault>): Result<seq<ManifestEntry>, Fault> {
    if rest.Err? then rest else Ok(entries + rest.value)
  }

  lemma JoinedNothing(rest: Result<seq<ManifestEntry>, Fault>)
    ensures Joined([], rest) == rest
    ensures forall entries :: Joined(entries, Ok([])) == Ok(entries)
  {
    assert rest.Ok? ==> [] + rest.value == rest.value;
    assert forall entries: seq<ManifestEntry> :: entries + [] == entries;
  }

  lemma JoinedStep(entries: seq<ManifestEntry>, e: ManifestEntry, rest: Result<seq<ManifestEntry>, Fault>)
    ensures Joined(entries, if rest.Err? then rest else Ok([e] + rest.value)) == Joined(entries + [e], rest)
  {
    if rest.Ok? {
      assert entries + ([e] + rest.value) == entries + [e] + rest.value;
    }
  }

  lemma JoinedErrors(entries: seq<ManifestEntry>, rest: Result<seq<ManifestEntry>, Fault>)
    ensures rest.Err? ==> Joined(entries, rest) == rest
  {
  }

  method VerifyEntries(h: Digest.Hash, f: FoldTable, t: Tree, raws: seq<Value>) returns (r: Result<seq<ManifestEntry>, Fault>)
    ensures r == ReadEntries(h, f, t, raws, {})
  {
    hide EntryOf, Fold, Verified, ReadEntries, Joined;
    var entries: seq<ManifestEntry> := [];
    var seen: set<string> := {};
    assert raws[0..] == raws;
    JoinedNothing(ReadEntries(h, f, t, raws, {}));
    for k := 0 to |raws|
      invariant Joined(entries, ReadEntries(h, f, t, raws[k..], seen)) == ReadEntries(h, f, t, raws, {})
    {
      ReadStep(h, f, t, raws, k, seen);
      var raw := EntryOf(raws[k]);
      JoinedErrors(entries, ReadEntries(h, f, t, raws[k..], seen));
      if raw.None? {
        return Err(EntryInvalid);
      }
      var key := Fold(f, raw.value.path);
      if key in seen {
        return Err(DuplicatePath);
      }
      if !Verified(h, t, raw.value) {
        return Err(FileMismatch);
      }
      seen := seen + {key};
      JoinedStep(entries, raw.value, ReadEntries(h, f, t, raws[k + 1..], seen));
      entries := entries + [raw.value];
    }
    NothingToRead(h, f, t, seen);
    assert raws[|raws|..] == [];
    return Ok(entries);
  }

  lemma NothingToRead(h: Digest.Hash, f: FoldTable, t: Tree, seen: set<string>)
    ensures ReadEntries(h, f, t, [], seen) == Ok([])
  {
  }

  method LoadAndVerify(h: Digest.Hash, f: FoldTable, t: Tree) returns (r: Result<Loaded, Fault>)
    ensures r == Load(h, f, t)
  {
    hide ReadEntries, CheckLoaded, ReadJsonMapping, ManifestHeaderOk, RawEntries, ReadHashFile;
    if HASH_NAME !in t.files || ReadHashFile(t.files[HASH_NAME]).None? {
      return Err(HashRecord);
    }
    var sha := ReadHashFile(t.files[HASH_NAME]).value;
    if MANIFEST_NAME !in t.files || h(t.files[MANIFEST_NAME]) != sha {
      return Err(ManifestHash);
    }
    var manifest := ReadJsonMapping(t.files[MANIFEST_NAME], MAX_MANIFEST_BYTES);
    if manifest.None? {
      return Err(ControlFile);
    }
    if !ManifestHeaderOk(manifest.value) {
      return Err(Header);
    }
    if RawEntries(manifest.value).None? {
      return Err(EntryCount);
    }
    var entries := VerifyEntries(h, f, t, RawEntries(manifest.value).value);
    if entries.Err? {
      return Err(entries.error);
    }
    r := CheckLoaded(f, t, sha, entries.value);
  }

  // -------------------------------------------------------------------- restore

  datatype Restored = Restored(files: map<string, bytes>, fileCount: nat, totalBytes: nat, sha: string)

  /** Where an entry goes below the restore root; "." when nothing is left of the path. */
  function Destination(path: string, dbAt: string): Option<string> {
    if path == DATABASE_PAYLOAD then Some(dbAt)
    else if path == DATA_PREFIX then Some(".")
    else if StartsWith(path, DATA_PREFIX + "/") then Some(path[|DATA_PREFIX| + 1..])
    else None
  }

  /** One path would have to be a directory for the other. */
  predicate Clash(a: string, b: string) {
    StartsWith(b, a + "/") || StartsWith(a, b + "/")
  }

  predicate Writable(placed: map<string, bytes>, destination: string) {
    destination != "." && destination !in placed && forall q :: q in placed ==> !Clash(q, destination)
  }

  function Place(h: Digest.Hash, f: FoldTable, t: Tree, dbAt: string, entries: seq<ManifestEntry>,
                 placed: map<string, bytes>, keys: set<string>): Result<map<string, bytes>, Fault>
  {
    if entries == [] then Ok(placed)
    else if entries[0].path == METADATA_NAME then Place(h, f, t, dbAt, entries[1..], placed, keys)
    else if Destination(entries[0].path, dbAt).None? then Err(UnexpectedPayload)
    else
      var to := Destination(entries[0].path, dbAt).value;
      if Fold(f, to) == "" || Fold(f, to) in keys then Err(Collision)
      else if !Writable(placed, to) then Err(Storage)
      else if !Verified(h, t, entries[0]) then Err(FileMismatch)
      else Place(h, f, t, dbAt, entries[1..], placed[to := t.files[entries[0].path]], keys + {Fold(f, to)})
  }

  /** `restore_backup`, said in one expression; `dbRel` is the database path below the restore root. */
  function Restore(h: Digest.Hash, f: FoldTable, audit: Audit, t: Tree, dbRel: Option<Path>, free: nat): Result<Restored, Fault> {
    if dbRel.None? || dbRel.value == [] then Err(NotInside)
    else
      var dbAt := Join(dbRel.value);
      match Load(h, f, t)
      case Err(e) => Err(e)
      case Ok(loaded) =>
        if !EqualsNumber(Get(loaded.metadata, "schema_version"), SCHEMA_VERSION) then Err(SchemaUnsupported)
        else if free < TotalSize(PayloadEntries(loaded.entries)) then Err(NoSpace)
        else
          match Place(h, f, t, dbAt, loaded.entries, map[], {})
          case Err(e) => Err(e)
          case Ok(files) =>
            if dbAt !in files || !audit(files[dbAt], AssetsOf(files)) then Err(AuditFailed)
            else Ok(Restored(files, |PayloadEntries(loaded.entries)|, TotalSize(PayloadEntries(loaded.entries)), loaded.sha))
  }

  lemma PlaceStep(h: Digest.Hash, f: FoldTable, t: Tree, dbAt: string, entries: seq<ManifestEntry>, k: nat,
                  placed: map<string, bytes>, keys: set<string>)
    requires k < |entries|
    ensures var e, r := entries[k], Place(h, f, t, dbAt, entries[k..], placed, keys);
            if e.path == METADATA_NAME then r == Place(h, f, t, dbAt, entries[k + 1..], placed, keys)
            else if Destination(e.path, dbAt).None? then r == Err(UnexpectedPayload)
            else
              var to := Destination(e.path, dbAt).value;
              if Fold(f, to) == "" || Fold(f, to) in keys then r == Err(Collision)
              else if !Writable(placed, to) then r == Err(Storage)
              else if !Verified(h, t, e) then r == Err(FileMismatch)
              else r == Place(h, f, t, dbAt, entries[k + 1..], placed[to := t.files[e.path]], keys + {Fold(f, to)})
    ensures |PayloadEntries(entries[k..])|
            == (if entries[k].path != METADATA_NAME then 1 else 0) + |PayloadEntries(entries[k + 1..])|
  {
    hide Fold, Destination, Writable;
    assert entries[k..][0] == entries[k] && entries[k..][1..] == entries[k + 1..];
  }

  lemma NothingToPlace(h: Digest.Hash, f: FoldTable, t: Tree, dbAt: string, placed: map<string, bytes>, keys: set<string>)
    ensures Place(h, f, t, dbAt, [], placed, keys) == Ok(placed) && PayloadEntries([]) == []
  {
  }

  method PlaceEntries(h: Digest.Hash, f: FoldTable, t: Tree, dbAt: string, entries: seq<ManifestEntry>)
    returns (r: Result<map<string, bytes>, Fault>, count: nat)
    ensures r == Place(h, f, t, dbAt, entries, map[], {})
    ensures r.Ok? ==> count == |PayloadEntries(entries)|
  {
    hide Fold, Destination, Writable, Place, PayloadEntries;
    assert entries[0..] == entries;
    var placed: map<string, bytes> := map[];
    var keys: set<string> := {};
    count := 0;
    for k := 0 to |entries|
      invariant Place(h, f, t, dbAt, entries[k..], placed, keys) == Place(h, f, t, dbAt, entries, map[], {})
      invariant count + |PayloadEntries(entries[k..])| == |PayloadEntries(entries)|
    {
      var e := entries[k];
      PlaceStep(h, f, t, dbAt, entries, k, placed, keys);
      if e.path != METADATA_NAME {
        var destination := Destination(e.path, dbAt);
        if destination.None? {
          return Err(UnexpectedPayload), count;
        }
        var to := destination.value;
        var key := Fold(f, to);
        if key == "" || key in keys {
          return Err(Collision), count;
        }
        keys := keys + {key};
        if !Writable(placed, to) {
          return Err(Storage), count;
        }
        if !Verified(h, t, e) {
          return Err(FileMismatch), count;
        }
        placed := placed[to := t.files[e.path]];
        count := count + 1;
      }
    }
    NothingToPlace(h, f, t, dbAt, placed, keys);
    assert entries[|entries|..] == [];
    r := Ok(placed);
  }

  method RestoreBackup(h: Digest.Hash, f: FoldTable, audit: Audit, t: Tree, dbRel: Option<Path>, free: nat)
    returns (r: Result<Restored, Fault>)
    ensures r == Restore(h, f, audit, t, dbRel, free)
  {
    hide Load, Place, Join, AssetsOf, TotalSize, PayloadEntries, Get;
    if dbRel.None? || dbRel.value == [] {
      return Err(NotInside);
    }
    var dbAt := Join(dbRel.value);
    var loaded := LoadAndVerify(h, f, t);
    if loaded.Err? {
      return Err(loaded.error);
    }
    if !EqualsNumber(Get(loaded.value.metadata, "schema_version"), SCHEMA_VERSION) {
      return Err(SchemaUnsupported);
    }
    var entries := loaded.value.entries;
    var total := TotalSize(PayloadEntries(entries));
    if free < total {
      return Err(NoSpace);
    }
    var placed, count := PlaceEntries(h, f, t, dbAt, entries);
    if placed.Err? {
      return Err(placed.error);
    }
    if dbAt !in placed.value || !audit(placed.value[dbAt], AssetsOf(placed.value)) {
      return Err(AuditFailed);
    }
    return Ok(Restored(placed.value, count, total, loaded.value.sha));
  }
}
