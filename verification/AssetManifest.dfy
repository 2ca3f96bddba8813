/** The manifest of an asset, and the audit against the database. */
module AssetManifest {
  import opened Common
  import opened Json
  import opened JsonCanonical
  import opened Paths
  import opened BackupFormat
  import opened SidecarNames

  /** One stored sidecar; `file` is its name below its kind's directory. */
  datatype Record = Record(kind: string, ordinal: nat, file: string, size: nat, mime: string, language: Option<string>, sha: string)

  /** The parts of a manifest the audit does not look at are any JSON values; `media` holds the duration, a float. */
  datatype Manifest = Manifest(
    assetId: string, originalName: string, originalSize: nat, originalSha: string, records: seq<Record>,
    createdAt: string, jobId: string, attemptId: string, sourceItemId: string, mediaKey: string, media: Value, producer: Value)

  function RelativeOf(r: Record): string {
    Join([DirectoryOf(r.kind), r.file])
  }

  function Language(l: Option<string>): Value {
    if l.Some? then Str(l.value) else Null
  }

  function RecordValue(r: Record): Value {
    Obj([Field("path", Str(RelativeOf(r))), Field("kind", Str(r.kind)), Field("ordinal", Num(r.ordinal)),
         Field("size_bytes", Num(r.size)), Field("mime_type", Str(r.mime)), Field("language", Language(r.language)),
         Field("sha256", Str(r.sha))])
  }

  function RecordValues(records: seq<Record>): (r: seq<Value>)
    ensures |r| == |records|
  {
    seq(|records|, i requires 0 <= i < |records| => RecordValue(records[i]))
  }

  function OriginalValue(m: Manifest): Value {
    Obj([Field("path", Str("original/" + m.originalName)), Field("size_bytes", Num(m.originalSize)), Field("sha256", Str(m.originalSha))])
  }

  /** The manifest in the order its keys are written; the file sorts them. */
  function ManifestOf(m: Manifest): seq<Field> {
    [Field("schema_version", Num(1)), Field("created_at", Str(m.createdAt)), Field("asset_id", Str(m.assetId)),
     Field("job_id", Str(m.jobId)), Field("attempt_id", Str(m.attemptId)), Field("source_item_id", Str(m.sourceItemId)),
     Field("media_key", Str(m.mediaKey)), Field("original", OriginalValue(m)), Field("media", m.media),
     Field("producer", m.producer), Field("artifacts", Arr(RecordValues(m.records)))]
  }

  // ------------------------------------------------------------------------ audit

  datatype Row = Row(id: string, kind: string, path: string, mime: Option<string>, sha: string, language: Option<string>)

  datatype AssetRow = AssetRow(id: string, size: int, sha: string)

  /** What makes a sidecar the same in the manifest and in the database. */
  datatype Key = Key(kind: Value, path: string, mime: Value, language: Value, sha: string, size: int)

  /** `dict.get`, where a missing member and `null` are both None. */
  function Got(fields: seq<Field>, name: string): Value {
    if Get(fields, name).Some? then Get(fields, name).value else Null
  }

  function KeyOf(raw: Value): Option<Key> {
    if !raw.Obj? then None
    else
      match (Get(raw.fields, "path"), Get(raw.fields, "size_bytes"), Get(raw.fields, "ordinal"), Get(raw.fields, "sha256"))
      case (Some(Str(path)), Some(Num(size)), Some(Num(ordinal)), Some(Str(sha))) =>
        if ValidRelative(path) && size >= 0 && ordinal >= 0 && IsHex64(sha) then
          Some(Key(Got(raw.fields, "kind"), path, Got(raw.fields, "mime_type"), Got(raw.fields, "language"), sha, size))
        else None
      case _ => None
  }

  /** A row's path below its asset's directory. */
  function Below(assetId: string, path: string): Option<string> {
    var prefix := "assets/" + assetId + "/";
    if StartsWith(path, prefix) then Some(path[|prefix|..]) else None
  }

  predicate SidecarRow(row: Row) {
    row.kind == "thumbnail" || row.kind == "caption"
  }

  function RowKey(assetId: string, row: Row, sizes: map<string, nat>): Option<Key> {
    if Below(assetId, row.path).None? || row.id !in sizes then None
    else Some(Key(Str(row.kind), Below(assetId, row.path).value, Language(row.mime), Language(row.language), row.sha, sizes[row.id]))
  }

  /** The manifest agrees with the asset's row about the original. */
  predicate OriginalOk(asset: AssetRow, original: Row, fields: seq<Field>) {
    && EqualsText(Get(fields, "asset_id"), Some(asset.id))
    && Below(asset.id, original.path).Some?
    && match Get(fields, "original")
       case Some(Obj(o)) =>
         && EqualsText(Get(o, "path"), Below(asset.id, original.path))
         && EqualsText(Get(o, "sha256"), Some(asset.sha)) && EqualsInt(Get(o, "size_bytes"), asset.size)
       case _ => false
  }

  /** Every raw sidecar has a key, the keys are distinct, and they are exactly the rows' keys. */
  ghost predicate SidecarsOk(assetId: string, rows: seq<Row>, sizes: map<string, nat>, raws: seq<Value>) {
    && (forall i :: 0 <= i < |raws| ==> KeyOf(raws[i]).Some?)
    && (forall i, j :: 0 <= i < j < |raws| ==> KeyOf(raws[i]) != KeyOf(raws[j]))
    && (forall k :: 0 <= k < |rows| && SidecarRow(rows[k]) ==> RowKey(assetId, rows[k], sizes).Some?)
    && forall key :: (exists i :: 0 <= i < |raws| && KeyOf(raws[i]) == Some(key)) <==>
                     (exists k :: 0 <= k < |rows| && SidecarRow(rows[k]) && RowKey(assetId, rows[k], sizes) == Some(key))
  }

  ghost predicate ManifestAccepted(asset: AssetRow, original: Row, rows: seq<Row>, sizes: map<string, nat>, fields: seq<Field>) {
    && OriginalOk(asset, original, fields)
    && Get(fields, "artifacts").Some? && Get(fields, "artifacts").value.Arr?
    && SidecarsOk(asset.id, rows, sizes, Get(fields, "artifacts").value.items)
  }

  /** Every member of a manifest by its name. */
  lemma ManifestSays(m: Manifest)
    ensures var fields := ManifestOf(m);
            && Get(fields, "schema_version") == Some(Num(1)) && Get(fields, "created_at") == Some(Str(m.createdAt))
            && Get(fields, "asset_id") == Some(Str(m.assetId)) && Get(fields, "job_id") == Some(Str(m.jobId))
            && Get(fields, "attempt_id") == Some(Str(m.attemptId)) && Get(fields, "source_item_id") == Some(Str(m.sourceItemId))
            && Get(fields, "media_key") == Some(Str(m.mediaKey)) && Get(fields, "original") == Some(OriginalValue(m))
            && Get(fields, "media") == Some(m.media) && Get(fields, "producer") == Some(m.producer)
            && Get(fields, "artifacts") == Some(Arr(RecordValues(m.records))) && |fields| == 11
  {
    hide Get, OriginalValue, RecordValues;
    var fields := ManifestOf(m);
    forall k | 0 <= k < 11 ensures Get(fields, fields[k].name) == Some(fields[k].value) {
      forall j | k < j < 11 ensures fields[j].name != fields[k].name { ManifestNamesApart(m, k, j); }
      GetAt(fields, k);
    }
    assert fields[0].name == "schema_version" && fields[1].name == "created_at" && fields[2].name == "asset_id";
    assert fields[3].name == "job_id" && fields[4].name == "attempt_id" && fields[5].name == "source_item_id";
    assert fields[6].name == "media_key" && fields[7].name == "original" && fields[8].name == "media";
    assert fields[9].name == "producer" && fields[10].name == "artifacts";
  }

  lemma ManifestNamesApart(m: Manifest, k: nat, j: nat)
    requires k < j < 11
    ensures ManifestOf(m)[k].name != ManifestOf(m)[j].name
  {
    assert "created_at"[0] == 'c' && "job_id"[0] == 'j' && "original"[0] == 'o' && "producer"[0] == 'p';
    assert "schema_version"[1] == 'c' && "source_item_id"[1] == 'o' && "media_key"[0] == 'm' && "media"[0] == 'm';
    assert "asset_id"[1] == 's' && "attempt_id"[1] == 't' && "artifacts"[1] == 'r' && |"media"| == 5 && |"media_key"| == 9;
  }

  /** The original agrees exactly when the manifest carries the asset's id, and the original's path below it, size and digest. */
  lemma OriginalExactly(asset: AssetRow, original: Row, fields: seq<Field>)
    ensures OriginalOk(asset, original, fields)
            <==> && Get(fields, "asset_id") == Some(Str(asset.id))
                 && exists o, rest ::
                      && Get(fields, "original") == Some(Obj(o)) && original.path == "assets/" + asset.id + "/" + rest
                      && Get(o, "path") == Some(Str(rest)) && Get(o, "sha256") == Some(Str(asset.sha))
                      && EqualsInt(Get(o, "size_bytes"), asset.size)
  {
    hide Get, EqualsInt;
    BelowExactly(asset.id, original.path);
  }

  lemma BelowExactly(assetId: string, path: string)
    ensures forall rest :: Below(assetId, path) == Some(rest) <==> path == "assets/" + assetId + "/" + rest
  {
    var prefix := "assets/" + assetId + "/";
    forall rest ensures Below(assetId, path) == Some(rest) <==> path == prefix + rest {
      if path == prefix + rest { assert path[..|prefix|] == prefix && path[|prefix|..] == rest; }
      if StartsWith(path, prefix) { assert path == prefix + path[|prefix|..]; }
    }
  }

  method RawKeys(raws: seq<Value>) returns (r: Option<set<Key>>)
    ensures r.Some? <==> (forall i :: 0 <= i < |raws| ==> KeyOf(raws[i]).Some?)
                         && (forall i, j :: 0 <= i < j < |raws| ==> KeyOf(raws[i]) != KeyOf(raws[j]))
    ensures r.Some? ==> forall key :: key in r.value <==> exists i :: 0 <= i < |raws| && KeyOf(raws[i]) == Some(key)
  {
    hide KeyOf;
    var keys: set<Key> := {};
    for i := 0 to |raws|
      invariant forall j :: 0 <= j < i ==> KeyOf(raws[j]).Some?
      invariant forall j, k :: 0 <= j < k < i ==> KeyOf(raws[j]) != KeyOf(raws[k])
      invariant forall key :: key in keys <==> exists j :: 0 <= j < i && KeyOf(raws[j]) == Some(key)
    {
      var key := KeyOf(raws[i]);
      if key.None? || key.value in keys {
        return None;
      }
      keys := keys + {key.value};
    }
    return Some(keys);
  }

  method RowKeys(assetId: string, rows: seq<Row>, sizes: map<string, nat>) returns (r: Option<set<Key>>)
    ensures r.Some? <==> forall k :: 0 <= k < |rows| && SidecarRow(rows[k]) ==> RowKey(assetId, rows[k], sizes).Some?
    ensures r.Some? ==> forall key :: key in r.value <==>
                          exists k :: 0 <= k < |rows| && SidecarRow(rows[k]) && RowKey(assetId, rows[k], sizes) == Some(key)
  {
    hide RowKey, SidecarRow;
    var keys: set<Key> := {};
    for i := 0 to |rows|
      invariant forall k :: 0 <= k < i && SidecarRow(rows[k]) ==> RowKey(assetId, rows[k], sizes).Some?
      invariant forall key :: key in keys <==> exists k :: 0 <= k < i && SidecarRow(rows[k]) && RowKey(assetId, rows[k], sizes) == Some(key)
    {
      if SidecarRow(rows[i]) {
        var key := RowKey(assetId, rows[i], sizes);
        if key.None? {
          return None;
        }
        keys := keys + {key.value};
      }
    }
    return Some(keys);
  }

  /** `_audit_asset_manifest`. */
  method AuditAssetManifest(asset: AssetRow, original: Row, rows: seq<Row>, sizes: map<string, nat>, fields: seq<Field>) returns (ok: bool)
    ensures ok <==> ManifestAccepted(asset, original, rows, sizes, fields)
  {
    hide OriginalOk, KeyOf, RowKey, SidecarRow, Get;
    if !OriginalOk(asset, original, fields) {
      return false;
    }
    var artifacts := Get(fields, "artifacts");
    if artifacts.None? || !artifacts.value.Arr? {
      return false;
    }
    var manifest := RawKeys(artifacts.value.items);
    if manifest.None? {
      return false;
    }
    var database := RowKeys(asset.id, rows, sizes);
    if database.None? {
      return false;
    }
    ok := manifest.value == database.value;
    if ok {
      assert forall key :: key in manifest.value <==> key in database.value;
    }
  }

  // ------------------------------------------------------- what staging writes passes

  /** A record as staging makes it. */
  predicate RecordFits(r: Record) {
    && (r.kind == "thumbnail" || r.kind == "caption") && Name(r.file) && '\\' !in r.file
    && |RelativeOf(r)| <= MAX_PATH_CHARS && IsHex64(r.sha)
  }

  function RowPath(assetId: string, relative: string): string {
    "assets/" + assetId + "/" + relative
  }

  /** The rows that mirror a manifest: the original's, the manifest's own, and one for every record. */
  ghost predicate RowsMirror(m: Manifest, asset: AssetRow, original: Row, rows: seq<Row>, sizes: map<string, nat>) {
    && asset == AssetRow(m.assetId, m.originalSize, m.originalSha)
    && original.path == RowPath(m.assetId, "original/" + m.originalName)
    && (forall i :: 0 <= i < |m.records| ==> exists k :: 0 <= k < |rows| && RowFor(m.assetId, m.records[i], rows[k], sizes))
    && (forall k :: 0 <= k < |rows| && SidecarRow(rows[k]) ==> exists i :: 0 <= i < |m.records| && RowFor(m.assetId, m.records[i], rows[k], sizes))
  }

  predicate RowFor(assetId: string, r: Record, row: Row, sizes: map<string, nat>) {
    && row.kind == r.kind && row.path == RowPath(assetId, RelativeOf(r)) && row.mime == Some(r.mime)
    && row.sha == r.sha && row.language == r.language && row.id in sizes && sizes[row.id] == r.size
  }

  function RecordKey(r: Record): Key {
    Key(Str(r.kind), RelativeOf(r), Str(r.mime), Language(r.language), r.sha, r.size)
  }

  lemma DirectoryIsPlain(kind: string)
    requires kind == "thumbnail" || kind == "caption"
    ensures Name(DirectoryOf(kind)) && ':' !in DirectoryOf(kind) && '\\' !in DirectoryOf(kind)
  {
    assert |"thumbnail"| == 9 && |"caption"| == 7;
  }

  lemma RelativeIsValid(r: Record)
    requires RecordFits(r)
    ensures ValidRelative(RelativeOf(r))
  {
    DirectoryIsPlain(r.kind);
    var parts := [DirectoryOf(r.kind), r.file];
    CharsOfJoin(parts, '\\');
    assert Clean(parts);
    hide Join, Name, DirectoryOf, ValidRelative, Clean;
    assert parts[0] == DirectoryOf(r.kind) && parts[1] == r.file;
    JoinedIsValid(parts);
  }

  lemma RecordNamesDiffer()
    ensures "path" != "kind" && "path" != "ordinal" && "path" != "size_bytes" && "path" != "mime_type" && "path" != "language" && "path" != "sha256"
    ensures "kind" != "ordinal" && "kind" != "size_bytes" && "kind" != "mime_type" && "kind" != "language" && "kind" != "sha256"
    ensures "ordinal" != "size_bytes" && "ordinal" != "mime_type" && "ordinal" != "language" && "ordinal" != "sha256"
    ensures "size_bytes" != "mime_type" && "size_bytes" != "language" && "size_bytes" != "sha256"
    ensures "mime_type" != "language" && "mime_type" != "sha256" && "language" != "sha256"
  {
    assert "path"[0] == 'p' && "kind"[0] == 'k' && "ordinal"[0] == 'o' && "size_bytes"[0] == 's' && "mime_type"[0] == 'm';
    assert "language"[0] == 'l' && "sha256"[0] == 's' && |"size_bytes"| == 10 && |"sha256"| == 6;
  }

  lemma RecordReads(r: Record)
    ensures var fields := RecordValue(r).fields;
            && Get(fields, "path") == Some(Str(RelativeOf(r))) && Get(fields, "kind") == Some(Str(r.kind))
            && Get(fields, "ordinal") == Some(Num(r.ordinal)) && Get(fields, "size_bytes") == Some(Num(r.size))
            && Get(fields, "mime_type") == Some(Str(r.mime)) && Get(fields, "language") == Some(Language(r.language))
            && Get(fields, "sha256") == Some(Str(r.sha))
  {
    RecordNamesDiffer();
    hide Get, RelativeOf, Language;
    var fields := RecordValue(r).fields;
    GetAt(fields, 0);
    GetAt(fields, 1);
    GetAt(fields, 2);
    GetAt(fields, 3);
    GetAt(fields, 4);
    GetAt(fields, 5);
    GetAt(fields, 6);
  }

  /** A written record, as the reader finds it, has exactly its own key. */
  lemma RecordKeyReads(r: Record)
    requires RecordFits(r)
    ensures KeyOf(Canonical(RecordValue(r))) == Some(RecordKey(r))
  {
    RecordReads(r);
    RelativeIsValid(r);
    var fields := RecordValue(r).fields;
    assert Canonical(RecordValue(r)) == Obj(CanonicalFields(fields));
    assert Canonical(Language(r.language)) == Language(r.language);
    hide Get, RelativeOf, RecordValue, CanonicalFields, ValidRelative, IsHex64, Language;
    GetCanonical(fields, "path");
    GetCanonical(fields, "kind");
    GetCanonical(fields, "ordinal");
    GetCanonical(fields, "size_bytes");
    GetCanonical(fields, "mime_type");
    GetCanonical(fields, "language");
    GetCanonical(fields, "sha256");
  }

  lemma BelowRowPath(assetId: string, relative: string)
    ensures Below(assetId, RowPath(assetId, relative)) == Some(relative)
  {
    var prefix := "assets/" + assetId + "/";
    assert RowPath(assetId, relative) == prefix + relative;
    hide RowPath;
  }

  lemma RowKeyIsRecordKey(assetId: string, r: Record, row: Row, sizes: map<string, nat>)
    requires RowFor(assetId, r, row, sizes)
    ensures RowKey(assetId, row, sizes) == Some(RecordKey(r))
  {
    BelowRowPath(assetId, RelativeOf(r));
    hide RowPath, RelativeOf, Below;
  }

  ghost predicate HasRow(assetId: string, rows: seq<Row>, sizes: map<string, nat>, key: Key) {
    exists k :: 0 <= k < |rows| && SidecarRow(rows[k]) && RowKey(assetId, rows[k], sizes) == Some(key)
  }

  lemma SidecarsFromKeys(assetId: string, rows: seq<Row>, sizes: map<string, nat>, raws: seq<Value>, keys: seq<Key>)
    requires |keys| == |raws| && forall i :: 0 <= i < |raws| ==> KeyOf(raws[i]) == Some(keys[i])
    requires forall i, j :: 0 <= i < j < |keys| ==> keys[i] != keys[j]
    requires forall k :: 0 <= k < |rows| && SidecarRow(rows[k]) ==> RowKey(assetId, rows[k], sizes).Some? && RowKey(assetId, rows[k], sizes).value in keys
    requires forall i :: 0 <= i < |keys| ==> HasRow(assetId, rows, sizes, keys[i])
    ensures SidecarsOk(assetId, rows, sizes, raws)
  {
    hide KeyOf, RowKey, SidecarRow;
    forall key | exists k :: 0 <= k < |rows| && SidecarRow(rows[k]) && RowKey(assetId, rows[k], sizes) == Some(key)
      ensures exists i :: 0 <= i < |raws| && KeyOf(raws[i]) == Some(key)
    {
      var i :| 0 <= i < |keys| && keys[i] == key;
      assert KeyOf(raws[i]) == Some(key);
    }
  }

  function RecordKeys(records: seq<Record>): (r: seq<Key>)
    ensures |r| == |records| && forall i :: 0 <= i < |records| ==> r[i] == RecordKey(records[i])
  {
    seq(|records|, i requires 0 <= i < |records| => RecordKey(records[i]))
  }

  lemma RecordKeysDistinct(records: seq<Record>)
    requires forall i, j :: 0 <= i < j < |records| ==> RelativeOf(records[i]) != RelativeOf(records[j])
    ensures forall i, j :: 0 <= i < j < |records| ==> RecordKeys(records)[i] != RecordKeys(records)[j]
  {
    hide RelativeOf;
    forall i, j | 0 <= i < j < |records| ensures RecordKeys(records)[i] != RecordKeys(records)[j] {
      assert RelativeOf(records[i]) != RelativeOf(records[j]);
      assert RecordKey(records[i]).path == RelativeOf(records[i]) && RecordKey(records[j]).path == RelativeOf(records[j]);
    }
  }

  lemma WrittenKeys(records: seq<Record>)
    requires forall i :: 0 <= i < |records| ==> RecordFits(records[i])
    ensures var raws := CanonicalItems(RecordValues(records));
            |raws| == |records| && forall i :: 0 <= i < |raws| ==> KeyOf(raws[i]) == Some(RecordKeys(records)[i])
  {
    hide RecordValue, KeyOf, RecordKey, RecordFits, Canonical;
    CanonicalOfItems(RecordValues(records));
    var raws := CanonicalItems(RecordValues(records));
    forall i | 0 <= i < |raws| ensures KeyOf(raws[i]) == Some(RecordKeys(records)[i]) {
      RecordKeyReads(records[i]);
      assert RecordValues(records)[i] == RecordValue(records[i]);
    }
  }

  lemma RecordsGiveSidecarsOk(m: Manifest, asset: AssetRow, original: Row, rows: seq<Row>, sizes: map<string, nat>)
    requires RowsMirror(m, asset, original, rows, sizes) && forall i :: 0 <= i < |m.records| ==> RecordFits(m.records[i])
    requires forall i, j :: 0 <= i < j < |m.records| ==> RelativeOf(m.records[i]) != RelativeOf(m.records[j])
    ensures SidecarsOk(m.assetId, rows, sizes, CanonicalItems(RecordValues(m.records)))
  {
    hide RecordValues, RecordKey, KeyOf, RelativeOf, RowPath, RowKey, CanonicalItems, RecordFits, SidecarsOk;
    WrittenKeys(m.records);
    RecordKeysDistinct(m.records);
    var keys := RecordKeys(m.records);
    forall k | 0 <= k < |rows| && SidecarRow(rows[k])
      ensures RowKey(m.assetId, rows[k], sizes).Some? && RowKey(m.assetId, rows[k], sizes).value in keys
    {
      var i :| 0 <= i < |m.records| && RowFor(m.assetId, m.records[i], rows[k], sizes);
      RowKeyIsRecordKey(m.assetId, m.records[i], rows[k], sizes);
      assert keys[i] == RecordKey(m.records[i]);
    }
    forall i | 0 <= i < |keys|
      ensures HasRow(m.assetId, rows, sizes, keys[i])
    {
      var k :| 0 <= k < |rows| && RowFor(m.assetId, m.records[i], rows[k], sizes);
      RowKeyIsRecordKey(m.assetId, m.records[i], rows[k], sizes);
      FittingKind(m.assetId, m.records[i], rows[k], sizes);
    }
    SidecarsFromKeys(m.assetId, rows, sizes, CanonicalItems(RecordValues(m.records)), keys);
  }

  lemma FittingKind(assetId: string, r: Record, row: Row, sizes: map<string, nat>)
    requires RecordFits(r) && RowFor(assetId, r, row, sizes)
    ensures SidecarRow(row)
  {
    hide RelativeOf, RowPath;
  }

  lemma ManifestNamesDiffer()
    ensures var names := ["schema_version", "created_at", "asset_id", "job_id", "attempt_id", "source_item_id", "media_key", "original",
                          "media", "producer", "artifacts"];
            && (forall k :: 2 < k < 11 ==> names[k] != names[2]) && (forall k :: 7 < k < 11 ==> names[k] != names[7])
  {
    assert |"asset_id"| == 8 && |"job_id"| == 6 && |"attempt_id"| == 10 && |"source_item_id"| == 14 && |"media_key"| == 9;
    assert |"original"| == 8 && |"media"| == 5 && |"producer"| == 8 && |"artifacts"| == 9;
    assert "asset_id"[0] == 'a' && "original"[0] == 'o' && "producer"[0] == 'p';
  }

  lemma OriginalReads(m: Manifest)
    ensures var o := OriginalValue(m).fields;
            && Get(o, "path") == Some(Str("original/" + m.originalName)) && Get(o, "sha256") == Some(Str(m.originalSha))
            && Get(o, "size_bytes") == Some(Num(m.originalSize))
  {
    RecordNamesDiffer();
    hide Get;
    var o := OriginalValue(m).fields;
    GetAt(o, 0);
    GetAt(o, 1);
    GetAt(o, 2);
  }

  lemma ManifestReadsBack(m: Manifest)
    ensures var fields := ManifestOf(m);
            && Get(fields, "asset_id") == Some(Str(m.assetId)) && Get(fields, "original") == Some(OriginalValue(m))
            && Get(fields, "artifacts") == Some(Arr(RecordValues(m.records)))
  {
    ManifestNamesDiffer();
    hide Get, OriginalValue, RecordValues;
    var fields := ManifestOf(m);
    GetAt(fields, 2);
    GetAt(fields, 7);
    GetAt(fields, 10);
  }

  /** What `_write_json_sync` writes, the audit reads as the canonical form of the same object. */
  lemma WrittenManifestReads(m: Manifest, maxBytes: nat)
    ensures ReadJsonMapping(JsonFile(Obj(ManifestOf(m))), maxBytes)
            == if |JsonFile(Obj(ManifestOf(m)))| <= maxBytes then Some(CanonicalFields(ManifestOf(m))) else None
  {
    var fields := CanonicalFields(ManifestOf(m));
    assert Canonical(Obj(ManifestOf(m))) == Obj(fields);
    CanonicalIsCanonical(Obj(ManifestOf(m)));
    CanonicalStays(Obj(fields));
    assert JsonFile(Obj(ManifestOf(m))) == JsonFile(Obj(fields));
    hide ManifestOf, JsonFile, CanonicalFields, IsCanonical;
    JsonFileReads(fields, maxBytes);
  }

  lemma OriginalPasses(m: Manifest, asset: AssetRow, original: Row)
    requires asset == AssetRow(m.assetId, m.originalSize, m.originalSha)
    requires original.path == RowPath(m.assetId, "original/" + m.originalName)
    ensures OriginalOk(asset, original, CanonicalFields(ManifestOf(m)))
  {
    hide Get, ManifestOf, OriginalValue, RowPath, Below, CanonicalFields;
    ManifestReadsBack(m);
    OriginalObjectReads(m);
    BelowRowPath(m.assetId, "original/" + m.originalName);
    GetCanonical(ManifestOf(m), "asset_id");
    GetCanonical(ManifestOf(m), "original");
  }

  /** The original's object, as the audit reads it back. */
  lemma OriginalObjectReads(m: Manifest)
    ensures Canonical(OriginalValue(m)).Obj?
    ensures var o := Canonical(OriginalValue(m)).fields;
            && Get(o, "path") == Some(Str("original/" + m.originalName)) && Get(o, "sha256") == Some(Str(m.originalSha))
            && Get(o, "size_bytes") == Some(Num(m.originalSize))
  {
    OriginalReads(m);
    var o := OriginalValue(m).fields;
    assert Canonical(OriginalValue(m)) == Obj(CanonicalFields(o));
    hide Get, OriginalValue, CanonicalFields;
    GetCanonical(o, "path");
    GetCanonical(o, "sha256");
    GetCanonical(o, "size_bytes");
  }

  /** The manifest written for a staged asset, read back from disk, passes the audit of rows that mirror it. */
  lemma StagedManifestPasses(m: Manifest, asset: AssetRow, original: Row, rows: seq<Row>, sizes: map<string, nat>, maxBytes: nat)
    requires RowsMirror(m, asset, original, rows, sizes) && forall i :: 0 <= i < |m.records| ==> RecordFits(m.records[i])
    requires forall i, j :: 0 <= i < j < |m.records| ==> RelativeOf(m.records[i]) != RelativeOf(m.records[j])
    requires |JsonFile(Obj(ManifestOf(m)))| <= maxBytes
    ensures var read := ReadJsonMapping(JsonFile(Obj(ManifestOf(m))), maxBytes);
            read.Some? && ManifestAccepted(asset, original, rows, sizes, read.value)
  {
    WrittenManifestReads(m, maxBytes);
    ManifestReadsBack(m);
    OriginalPasses(m, asset, original);
    RecordsGiveSidecarsOk(m, asset, original, rows, sizes);
    hide ManifestOf, JsonFile, RecordValues, RelativeOf, RowsMirror, RecordFits, OriginalOk, SidecarsOk, Get, ReadJsonMapping;
    GetCanonical(ManifestOf(m), "artifacts");
  }

  /** The record of an accepted sidecar. */
  function RecordFor(p: Produced, sha: string): Record
    requires p.sidecar.ordinal >= 0
  {
    Record(p.sidecar.kind, p.sidecar.ordinal, StoredName(p.sidecar), p.size, p.sidecar.mime, p.sidecar.language, sha)
  }

  lemma StoredPathExtends(assetId: string, kind: string, file: string)
    ensures StoredPath(assetId, kind, file) == "assets" + ("/" + (assetId + ("/" + Join([DirectoryOf(kind), file]))))
  {
    hide DirectoryOf;
    var parts := ["assets", assetId, DirectoryOf(kind), file];
    assert parts[1..] == [assetId, DirectoryOf(kind), file];
    assert parts[1..][1..] == [DirectoryOf(kind), file];
    assert Join(parts[1..]) == assetId + ("/" + Join(parts[1..][1..]));
    assert Join(parts) == parts[0] + ("/" + Join(parts[1..]));
  }

  /** The record of any sidecar a download may have fits, as long as its path stays within 4096 characters. */
  lemma AcceptedRecordFits(source: (int, int), maxSize: nat, files: seq<Produced>, i: nat, sha: string)
    requires Acceptable(source, maxSize, files) && i < |files| && IsHex64(sha)
    ensures files[i].sidecar.ordinal >= 0
    ensures RecordFits(RecordFor(files[i], sha)) <==> |RelativeOf(RecordFor(files[i], sha))| <= MAX_PATH_CHARS
  {
    hide Describe, CountTo, IsHex64, StoredName, Join, DirectoryOf, Name, FileChar, LanguageFits, MimeOf, Lower, Suffix;
    assert Sound(source, maxSize, files[i]);
    DescribedName(files[i].sidecar);
    PlainHasNoBackslash(StoredName(files[i].sidecar));
  }

  /** No two of them are stored under one path. */
  lemma AcceptedRecordsApart(source: (int, int), maxSize: nat, files: seq<Produced>, i: nat, j: nat, sha: string, sha': string)
    requires Acceptable(source, maxSize, files) && i < j < |files|
    ensures files[i].sidecar.ordinal >= 0 && files[j].sidecar.ordinal >= 0
    ensures RelativeOf(RecordFor(files[i], sha)) != RelativeOf(RecordFor(files[j], sha'))
  {
    hide Describe, CountTo, IsCanonicalUuid, StoredName, Join, DirectoryOf, Name, FileChar, LanguageFits, MimeOf, StoredPath, Lower, Suffix;
    var a, b := files[i].sidecar, files[j].sidecar;
    assert Sound(source, maxSize, files[i]) && Sound(source, maxSize, files[j]) && Unlike(files[i], files[j]);
    var assetId := SomeUuid();
    StoredPathsApart(assetId, a, b);
    StoredPathExtends(assetId, a.kind, StoredName(a));
    StoredPathExtends(assetId, b.kind, StoredName(b));
    PathOfStored(assetId, a);
    PathOfStored(assetId, b);
  }

  lemma SomeUuid() returns (id: string)
    ensures IsCanonicalUuid(id)
  {
    id := "00000000-0000-0000-0000-000000000000";
  }

  ghost predicate OrdinalsNatural(files: seq<Produced>) {
    forall i :: 0 <= i < |files| ==> files[i].sidecar.ordinal >= 0
  }

  /** The records staging makes of a download's sidecars, with the digests of their contents. */
  function RecordsFor(files: seq<Produced>, shas: seq<string>): (r: seq<Record>)
    requires |shas| == |files| && forall i :: 0 <= i < |files| ==> files[i].sidecar.ordinal >= 0
    ensures |r| == |files|
  {
    seq(|files|, i requires 0 <= i < |files| => RecordFor(files[i], shas[i]))
  }

  /**
   The audit accepts the manifest of a staged asset exactly when the file and its sidecar paths are
   within their limits: whatever sidecars the download had, its manifest, read back from disk,
   agrees with the rows that mirror it.
   */
  lemma StagedAssetAuditsExactly(m: Manifest, source: (int, int), maxSize: nat, files: seq<Produced>, shas: seq<string>,
                                 asset: AssetRow, original: Row, rows: seq<Row>, sizes: map<string, nat>, maxBytes: nat)
    requires Acceptable(source, maxSize, files) && |shas| == |files| && forall i :: 0 <= i < |files| ==> IsHex64(shas[i])
    requires OrdinalsNatural(files) && m.records == RecordsFor(files, shas) && RowsMirror(m, asset, original, rows, sizes)
    ensures var read := ReadJsonMapping(JsonFile(Obj(ManifestOf(m))), maxBytes);
            read.Some? && ManifestAccepted(asset, original, rows, sizes, read.value)
            <==> |JsonFile(Obj(ManifestOf(m)))| <= maxBytes
                 && forall i :: 0 <= i < |m.records| ==> |RelativeOf(m.records[i])| <= MAX_PATH_CHARS
  {
    hide Acceptable, RecordFor, RecordFits, RelativeOf, IsHex64, RowsMirror, JsonFile, ManifestOf, ManifestAccepted, ReadJsonMapping;
    WrittenManifestReads(m, maxBytes);
    forall i | 0 <= i < |files|
      ensures RecordFits(m.records[i]) <==> |RelativeOf(m.records[i])| <= MAX_PATH_CHARS
    {
      AcceptedRecordFits(source, maxSize, files, i, shas[i]);
    }
    forall i, j | 0 <= i < j < |files| ensures RelativeOf(m.records[i]) != RelativeOf(m.records[j]) {
      AcceptedRecordsApart(source, maxSize, files, i, j, shas[i], shas[j]);
    }
    if |JsonFile(Obj(ManifestOf(m)))| <= maxBytes {
      if forall i :: 0 <= i < |m.records| ==> |RelativeOf(m.records[i])| <= MAX_PATH_CHARS {
        StagedManifestPasses(m, asset, original, rows, sizes, maxBytes);
      } else {
        var i :| 0 <= i < |m.records| && |RelativeOf(m.records[i])| > MAX_PATH_CHARS;
        LongPathFails(m, asset, original, rows, sizes, i);
      }
    }
  }

  lemma LongPathFails(m: Manifest, asset: AssetRow, original: Row, rows: seq<Row>, sizes: map<string, nat>, i: nat)
    requires i < |m.records| && |RelativeOf(m.records[i])| > MAX_PATH_CHARS
    ensures !ManifestAccepted(asset, original, rows, sizes, CanonicalFields(ManifestOf(m)))
  {
    hide OriginalOk, KeyOf, RecordValue, ManifestOf, RelativeOf, Get, CanonicalFields;
    ManifestReadsBack(m);
    GetCanonical(ManifestOf(m), "artifacts");
    var raws := CanonicalItems(RecordValues(m.records));
    CanonicalOfItems(RecordValues(m.records));
    assert Canonical(Arr(RecordValues(m.records))) == Arr(raws);
    LongRecordHasNoKey(m.records[i]);
    assert raws[i] == Canonical(RecordValue(m.records[i]));
  }

  lemma LongRecordHasNoKey(r: Record)
    requires |RelativeOf(r)| > MAX_PATH_CHARS
    ensures KeyOf(Canonical(RecordValue(r))).None?
  {
    RecordReads(r);
    var fields := RecordValue(r).fields;
    assert Canonical(RecordValue(r)) == Obj(CanonicalFields(fields));
    hide Get, RelativeOf, RecordValue, CanonicalFields, IsHex64, Language;
    GetCanonical(fields, "path");
  }

  lemma PathOfStored(assetId: string, s: Sidecar)
    requires s.ordinal >= 0
    ensures PathOf(assetId, s) == StoredPath(assetId, s.kind, StoredName(s))
  {
  }

  lemma PlainHasNoBackslash(s: string)
    requires forall i :: 0 <= i < |s| ==> FileChar(s[i])
    ensures '\\' !in s
  {
  }
}
