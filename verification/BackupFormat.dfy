/** The files a backup adds beside its payload. */
module BackupFormat {
  /*
   Metadata, manifest and hash record, as they are written and as they are read back.
   */

  import opened Common
  import Utf8
  import opened Json
  import opened JsonCanonical
  import opened Ordering
  import opened Paths

  const FORMAT_VERSION := 1
  const SCHEMA_VERSION := 11
  const METADATA_NAME := "backup-metadata.json"
  const MANIFEST_NAME := "backup-manifest.json"
  const HASH_NAME := "backup-manifest.sha256"
  const DATABASE_PAYLOAD := "payload/database/control.sqlite3"
  const DATA_PREFIX := "payload/data"
  const MAX_MANIFEST_BYTES := 64 * 1024 * 1024
  const MAX_METADATA_BYTES := 4 * 1024 * 1024
  const MAX_ENTRIES := 1_000_000

  datatype ManifestEntry = ManifestEntry(path: string, size: nat, sha: string)

  /** What a backup records about itself besides its totals. */
  datatype Stamp = Stamp(createdAt: string, applicationVersion: string, schemaVersion: int)

  // ------------------------------------------------------------- control files

  /** `_write_json_exclusive`: sorted keys, two-space indent, a final newline, UTF-8. */
  function JsonFile(v: Value): bytes {
    Utf8.Encode(Print(Canonical(v), Indented, 0) + "\n")
  }

  /** `_read_json_mapping`. */
  function ReadJsonMapping(raw: bytes, maxBytes: nat): Option<seq<Field>> {
    if |raw| > maxBytes || Utf8.Decode(raw).None? then None
    else
      match Loads(Utf8.Decode(raw).value)
      case Some(Obj(fields)) => Some(fields)
      case _ => None
  }

  lemma JsonFileReads(fields: seq<Field>, maxBytes: nat)
    requires IsCanonical(Obj(fields))
    ensures ReadJsonMapping(JsonFile(Obj(fields)), maxBytes)
            == if |JsonFile(Obj(fields))| <= maxBytes then Some(fields) else None
  {
    hide Print, Loads;
    CanonicalStays(Obj(fields));
    Utf8.DecodeEncoded(Print(Obj(fields), Indented, 0) + "\n");
    LoadsDumps(Obj(fields), Indented);
  }

  /** The hash record: 64 lower-case hex digits and a newline. */
  function HashFile(sha: string): bytes {
    Utf8.Encode(sha + "\n")
  }

  function ReadHashFile(raw: bytes): Option<string> {
    if |raw| == 65 && raw[64] == '\n' as int && forall i :: 0 <= i < 64 ==> raw[i] < 0x80 && IsLowerHex(raw[i] as char)
    then Some(seq(64, i requires 0 <= i < 64 => raw[i] as char))
    else None
  }

  lemma {:induction false} EncodeAscii(s: string)
    requires forall i :: 0 <= i < |s| ==> s[i] as int < 0x80
    ensures |Utf8.Encode(s)| == |s| && forall i :: 0 <= i < |s| ==> Utf8.Encode(s)[i] == s[i] as int
  {
    if s != "" { EncodeAscii(s[1..]); }
  }

  lemma HashFileReads(sha: string)
    requires IsHex64(sha)
    ensures ReadHashFile(HashFile(sha)) == Some(sha)
  {
    var text := sha + "\n";
    EncodeAscii(text);
    assert forall i :: 0 <= i < 64 ==> text[i] == sha[i];
    var raw := HashFile(sha);
    assert seq(64, i requires 0 <= i < 64 => raw[i] as char) == sha;
  }

  // ------------------------------------------------------------------- manifest

  function EntryValue(e: ManifestEntry): Value {
    Obj([Field("path", Str(e.path)), Field("sha256", Str(e.sha)), Field("size_bytes", Num(e.size))])
  }

  function EntryValues(entries: seq<ManifestEntry>): (r: seq<Value>)
    ensures |r| == |entries|
  {
    seq(|entries|, i requires 0 <= i < |entries| => EntryValue(entries[i]))
  }

  function ManifestFields(entries: seq<ManifestEntry>): seq<Field> {
    [Field("algorithm", Str("sha256")), Field("entries", Arr(EntryValues(entries))),
     Field("format_version", Num(FORMAT_VERSION)), Field("metadata_path", Str(METADATA_NAME))]
  }

  const ENTRY_NAMES := {"path", "size_bytes", "sha256"}

  /** One raw manifest entry: exactly three members of the right types. */
  function EntryOf(raw: Value): Option<ManifestEntry> {
    if !HasNames(raw, ENTRY_NAMES) then None
    else
      match (Get(raw.fields, "path"), Get(raw.fields, "size_bytes"), Get(raw.fields, "sha256"))
      case (Some(Str(path)), Some(Num(size)), Some(Str(sha))) =>
        if ValidRelative(path) && size >= 0 && IsHex64(sha) then Some(ManifestEntry(path, size, sha)) else None
      case _ => None
  }

  predicate ManifestHeaderOk(fields: seq<Field>) {
    && EqualsInt(Get(fields, "format_version"), FORMAT_VERSION)
    && EqualsText(Get(fields, "algorithm"), Some("sha256"))
    && EqualsText(Get(fields, "metadata_path"), Some(METADATA_NAME))
  }

  /** The raw entry list, when there is one of an admissible length. */
  function RawEntries(fields: seq<Field>): Option<seq<Value>> {
    match Get(fields, "entries")
    case Some(Arr(items)) => if 1 <= |items| <= MAX_ENTRIES then Some(items) else None
    case _ => None
  }

  lemma EntryNamesAscend()
    ensures Less("path", "sha256") && Less("sha256", "size_bytes")
  {
    assert "path"[0] == 'p' && "sha256"[0] == 's' && "size_bytes"[0] == 's';
    assert "sha256"[1..] == "ha256" && "size_bytes"[1..] == "ize_bytes";
  }

  lemma EntryValueReads(e: ManifestEntry)
    ensures IsCanonical(EntryValue(e))
    ensures EntryOf(EntryValue(e)) == if ValidRelative(e.path) && IsHex64(e.sha) then Some(e) else None
  {
    hide ValidRelative, IsHex64, Less, Get;
    var fields := EntryValue(e).fields;
    EntryNamesAscend();
    StepwiseIncreasing(fields);
    IncreasingGet(fields, 0);
    IncreasingGet(fields, 1);
    IncreasingGet(fields, 2);
    assert fields[0] in fields && fields[1] in fields && fields[2] in fields;
    assert HasNames(EntryValue(e), ENTRY_NAMES);
  }

  lemma ManifestReads(entries: seq<ManifestEntry>)
    ensures IsCanonical(Obj(ManifestFields(entries)))
    ensures ManifestHeaderOk(ManifestFields(entries))
    ensures RawEntries(ManifestFields(entries)) == if 1 <= |entries| <= MAX_ENTRIES then Some(EntryValues(entries)) else None
  {
    var fields := ManifestFields(entries);
    assert "algorithm"[0] == 'a' && "entries"[0] == 'e' && "format_version"[0] == 'f' && "metadata_path"[0] == 'm';
    StepwiseIncreasing(fields);
    IncreasingGet(fields, 0);
    IncreasingGet(fields, 1);
    IncreasingGet(fields, 2);
    IncreasingGet(fields, 3);
    forall i | 0 <= i < |entries| ensures IsCanonical(EntryValues(entries)[i]) {
      EntryValueReads(entries[i]);
    }
    assert IsCanonical(Arr(EntryValues(entries)));
  }

  // ------------------------------------------------------------------- metadata

  const CONSISTENCY := "sqlite_begin_immediate_plus_online_backup"

  function MetadataFields(stamp: Stamp, count: nat, total: nat): seq<Field> {
    [Field("application_version", Str(stamp.applicationVersion)), Field("consistency", Str(CONSISTENCY)),
     Field("created_at", Str(stamp.createdAt)), Field("data_payload_prefix", Str(DATA_PREFIX)),
     Field("database_payload_path", Str(DATABASE_PAYLOAD)), Field("format_version", Num(FORMAT_VERSION)),
     Field("payload_file_count", Num(count)), Field("payload_total_bytes", Num(total)),
     Field("schema_version", Num(stamp.schemaVersion)),
     Field("volatile_paths_excluded", Arr([Str("logs"), Str("temporary"), Str("assets/.staging")]))]
  }

  predicate MetadataHeaderOk(fields: seq<Field>) {
    && EqualsInt(Get(fields, "format_version"), FORMAT_VERSION)
    && EqualsText(Get(fields, "data_payload_prefix"), Some(DATA_PREFIX))
    && EqualsText(Get(fields, "database_payload_path"), Some(DATABASE_PAYLOAD))
  }

  predicate TotalsOk(fields: seq<Field>, count: nat, total: nat) {
    && EqualsInt(Get(fields, "payload_file_count"), count)
    && EqualsInt(Get(fields, "payload_total_bytes"), total)
  }

  lemma MetadataNamesAscend()
    ensures Less("application_version", "consistency") && Less("consistency", "created_at")
    ensures Less("created_at", "data_payload_prefix") && Less("data_payload_prefix", "database_payload_path")
    ensures Less("database_payload_path", "format_version")
  {
    assert "consistency" == "c" + "onsistency" && "created_at" == "c" + "reated_at";
    LessBelowPrefix("c", "onsistency", "reated_at");
    assert "data_payload_prefix" == "data" + "_payload_prefix" && "database_payload_path" == "data" + "base_payload_path";
    LessBelowPrefix("data", "_payload_prefix", "base_payload_path");
  }

  lemma MetadataNamesAscendFurther()
    ensures Less("format_version", "payload_file_count") && Less("payload_file_count", "payload_total_bytes")
    ensures Less("payload_total_bytes", "schema_version") && Less("schema_version", "volatile_paths_excluded")
  {
    assert "payload_file_count" == "payload_" + "file_count" && "payload_total_bytes" == "payload_" + "total_bytes";
    LessBelowPrefix("payload_", "file_count", "total_bytes");
  }

  lemma MetadataIncreases(stamp: Stamp, count: nat, total: nat)
    ensures Increasing(MetadataFields(stamp, count, total))
  {
    hide Less, DATA_PREFIX, DATABASE_PAYLOAD, CONSISTENCY;
    MetadataNamesAscend();
    MetadataNamesAscendFurther();
    StepwiseIncreasing(MetadataFields(stamp, count, total));
  }

  lemma MetadataReads(stamp: Stamp, count: nat, total: nat)
    ensures IsCanonical(Obj(MetadataFields(stamp, count, total)))
    ensures MetadataHeaderOk(MetadataFields(stamp, count, total)) && TotalsOk(MetadataFields(stamp, count, total), count, total)
    ensures Get(MetadataFields(stamp, count, total), "schema_version") == Some(Num(stamp.schemaVersion))
  {
    hide Less, Get, DATA_PREFIX, DATABASE_PAYLOAD, CONSISTENCY;
    var fields := MetadataFields(stamp, count, total);
    MetadataIncreases(stamp, count, total);
    IncreasingGet(fields, 3);
    IncreasingGet(fields, 4);
    IncreasingGet(fields, 5);
    IncreasingGet(fields, 6);
    IncreasingGet(fields, 7);
    IncreasingGet(fields, 8);
  }
}
