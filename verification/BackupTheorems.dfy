/**
 What loading a backup guarantees, whoever wrote it. The entries that were read are well
 formed, verified and distinct under case folding, counts and sizes are those the metadata
 records, and with the hash record intact a changed copy is accepted exactly when every
 tracked file is unchanged and whatever was added folds onto a tracked name.
 */
module BackupTheorems {
  import opened Common
  import Digest
  import opened Json
  import opened JsonCanonical
  import opened Paths
  import opened BackupFormat
  import opened Backup

  // ------------------------------------------------------- what was read in order

  predicate SameFold(f: FoldTable, a: ManifestEntry, b: ManifestEntry) {
    Fold(f, a.path) == Fold(f, b.path)
  }

  ghost predicate FoldsApart(f: FoldTable, entries: seq<ManifestEntry>) {
    forall i, j :: 0 <= i < j < |entries| ==> Fold(f, entries[i].path) != Fold(f, entries[j].path)
  }

  /** Reading succeeds exactly when every entry is well formed, verified and new under folding. */
  lemma {:induction false} ReadEntriesIsExact(h: Digest.Hash, f: FoldTable, t: Tree, raws: seq<Value>, seen: set<string>)
    ensures var r := ReadEntries(h, f, t, raws, seen);
            r.Ok? ==>
              && |r.value| == |raws| && FoldsApart(f, r.value)
              && forall i :: 0 <= i < |raws| ==>
                   EntryOf(raws[i]) == Some(r.value[i]) && Verified(h, t, r.value[i]) && Fold(f, r.value[i].path) !in seen
  {
    hide EntryOf, Fold, Verified;
    if raws != [] {
      var raw := EntryOf(raws[0]);
      if raw.Some? { ReadEntriesIsExact(h, f, t, raws[1..], seen + {Fold(f, raw.value.path)}); }
    }
  }

  /** ... and conversely. */
  lemma {:induction false} GoodEntriesAreRead(h: Digest.Hash, f: FoldTable, t: Tree, raws: seq<Value>, seen: set<string>,
                                              entries: seq<ManifestEntry>)
    requires |entries| == |raws| && FoldsApart(f, entries)
    requires forall i :: 0 <= i < |raws| ==>
               EntryOf(raws[i]) == Some(entries[i]) && Verified(h, t, entries[i]) && Fold(f, entries[i].path) !in seen
    ensures ReadEntries(h, f, t, raws, seen) == Ok(entries)
  {
    hide EntryOf, Fold, Verified;
    if raws != [] {
      GoodEntriesAreRead(h, f, t, raws[1..], seen + {Fold(f, entries[0].path)}, entries[1..]);
      assert entries == [entries[0]] + entries[1..];
    }
  }

  // ------------------------------------------------------------ tampering, exactly

  predicate SameOn(names: set<string>, t: Tree, u: Tree) {
    forall p :: p in names ==> p in t.files && p in u.files && t.files[p] == u.files[p]
  }

  /** Every name folds onto a tracked one. */
  ghost predicate Covered(f: FoldTable, names: set<string>, tracked: set<string>) {
    forall p :: p in names ==> exists q :: q in tracked && Fold(f, p) == Fold(f, q)
  }

  lemma FoldedKeysAgree(f: FoldTable, names: set<string>, tracked: set<string>)
    requires tracked <= names
    ensures FoldedKeys(f, names) == FoldedKeys(f, tracked) <==> Covered(f, names, tracked)
  {
    hide Fold;
    if FoldedKeys(f, names) == FoldedKeys(f, tracked) {
      forall p | p in names ensures exists q :: q in tracked && Fold(f, p) == Fold(f, q) {
        assert Fold(f, p) in FoldedKeys(f, names);
      }
    }
    if Covered(f, names, tracked) {
      forall key | key in FoldedKeys(f, names) ensures key in FoldedKeys(f, tracked) {
      }
      assert FoldedKeys(f, names) == FoldedKeys(f, tracked);
    }
  }

  ghost predicate CollisionFreeFor(h: Digest.Hash, t: Tree, u: Tree) {
    Digest.CollisionFree(h, t.files.Values + u.files.Values)
  }

  lemma SameHashSameFile(h: Digest.Hash, t: Tree, u: Tree, p: string)
    requires CollisionFreeFor(h, t, u) && p in t.files && p in u.files && h(t.files[p]) == h(u.files[p])
    ensures t.files[p] == u.files[p]
  {
    assert t.files[p] in t.files.Values && u.files[p] in u.files.Values;
  }

  function ManifestRaws(t: Tree): (r: seq<Value>)
    requires MANIFEST_NAME in t.files
  {
    match ReadJsonMapping(t.files[MANIFEST_NAME], MAX_MANIFEST_BYTES)
    case None => []
    case Some(fields) => if RawEntries(fields).None? then [] else RawEntries(fields).value
  }

  /** What reading the manifest of an accepted tree establishes. */
  lemma EntriesLoaded(h: Digest.Hash, f: FoldTable, t: Tree)
    requires LoadEntries(h, f, t).Ok?
    ensures HASH_NAME in t.files && MANIFEST_NAME in t.files
    ensures var (sha, entries) := LoadEntries(h, f, t).value;
            && ReadHashFile(t.files[HASH_NAME]) == Some(sha) && h(t.files[MANIFEST_NAME]) == sha
            && ReadEntries(h, f, t, ManifestRaws(t), {}) == Ok(entries)
  {
    hide ManifestHeaderOk, ReadJsonMapping, ReadHashFile, ReadEntries, RawEntries, LoadEntries, ManifestRaws, HASH_NAME, MANIFEST_NAME;
    RecordMatches(h, f, t);
    ListedAreRead(h, f, t);
  }

  /** A load that came to entries found the manifest its hash record names. */
  lemma RecordMatches(h: Digest.Hash, f: FoldTable, t: Tree)
    requires LoadEntries(h, f, t).Ok?
    ensures HASH_NAME in t.files && MANIFEST_NAME in t.files
    ensures ReadHashFile(t.files[HASH_NAME]) == Some(LoadEntries(h, f, t).value.0)
    ensures h(t.files[MANIFEST_NAME]) == LoadEntries(h, f, t).value.0
  {
    hide ManifestHeaderOk, ReadJsonMapping, ReadHashFile, ReadEntries, RawEntries, HASH_NAME, MANIFEST_NAME;
  }

  /** Its entries are what reading that manifest's list gives. */
  lemma ListedAreRead(h: Digest.Hash, f: FoldTable, t: Tree)
    requires LoadEntries(h, f, t).Ok?
    ensures ReadEntries(h, f, t, ManifestRaws(t), {}) == Ok(LoadEntries(h, f, t).value.1)
  {
    hide ManifestHeaderOk, ReadJsonMapping, ReadHashFile, ReadEntries, RawEntries, HASH_NAME, MANIFEST_NAME;
  }

  lemma EntriesVerified(h: Digest.Hash, f: FoldTable, t: Tree)
    requires LoadEntries(h, f, t).Ok?
    ensures forall e :: e in LoadEntries(h, f, t).value.1 ==> Verified(h, t, e) && ValidRelative(e.path)
    ensures FoldsApart(f, LoadEntries(h, f, t).value.1)
  {
    hide EntryOf, Fold, ReadEntries, LoadEntries, ManifestRaws, ValidRelative, Verified;
    EntriesLoaded(h, f, t);
    var raws, entries := ManifestRaws(t), LoadEntries(h, f, t).value.1;
    ReadEntriesIsExact(h, f, t, raws, {});
    forall i | 0 <= i < |entries| ensures Verified(h, t, entries[i]) && ValidRelative(entries[i].path) {
      assert EntryOf(raws[i]) == Some(entries[i]);
      EntryIsValid(raws[i]);
    }
  }

  lemma EntryIsValid(raw: Value)
    ensures EntryOf(raw).Some? ==> ValidRelative(EntryOf(raw).value.path)
  {
    hide ValidRelative, HasNames, Get;
  }

  /** A copy whose manifest reads the same lists the same entries; they must all verify. */
  lemma SameManifestSameEntries(h: Digest.Hash, f: FoldTable, t: Tree, u: Tree)
    requires LoadEntries(h, f, t).Ok?
    requires SameOn({HASH_NAME, MANIFEST_NAME}, t, u)
    ensures LoadEntries(h, f, u).Ok? <==> forall e :: e in LoadEntries(h, f, t).value.1 ==> Verified(h, u, e)
    ensures LoadEntries(h, f, u).Ok? ==> LoadEntries(h, f, u) == LoadEntries(h, f, t)
  {
    hide EntryOf, Fold, ManifestHeaderOk, ReadJsonMapping, ReadHashFile, Verified, ReadEntries, RawEntries;
    EntriesLoaded(h, f, t);
    var raws, entries := ManifestRaws(t), LoadEntries(h, f, t).value.1;
    SameRawsSameEntries(h, f, t, u, raws, entries);
    assert HASH_NAME in u.files && MANIFEST_NAME in u.files;
  }

  lemma SameRawsSameEntries(h: Digest.Hash, f: FoldTable, t: Tree, u: Tree, raws: seq<Value>, entries: seq<ManifestEntry>)
    requires ReadEntries(h, f, t, raws, {}) == Ok(entries)
    ensures ReadEntries(h, f, u, raws, {}).Ok? <==> forall e :: e in entries ==> Verified(h, u, e)
    ensures ReadEntries(h, f, u, raws, {}).Ok? ==> ReadEntries(h, f, u, raws, {}) == Ok(entries)
  {
    hide EntryOf, Fold, Verified, ReadEntries;
    ReadEntriesIsExact(h, f, t, raws, {});
    ReadEntriesIsExact(h, f, u, raws, {});
    if ReadEntries(h, f, u, raws, {}).Ok? {
      var others := ReadEntries(h, f, u, raws, {}).value;
      forall i | 0 <= i < |raws| ensures others[i] == entries[i] {
        assert EntryOf(raws[i]) == Some(others[i]) && EntryOf(raws[i]) == Some(entries[i]);
      }
      assert others == entries;
    }
    if forall e :: e in entries ==> Verified(h, u, e) {
      forall i | 0 <= i < |raws| ensures Verified(h, u, entries[i]) {
        assert entries[i] in entries;
      }
      GoodEntriesAreRead(h, f, u, raws, {}, entries);
    }
  }

  /** The entries a load returns are distinct under folding, and their sizes add up to the metadata's totals. */
  lemma LoadedIsConsistent(h: Digest.Hash, f: FoldTable, t: Tree)
    requires Load(h, f, t).Ok?
    ensures var loaded := Load(h, f, t).value;
            && FoldsApart(f, loaded.entries) && !t.special
            && (forall e :: e in loaded.entries ==> ValidRelative(e.path) && Verified(h, t, e))
            && FoldedKeys(f, t.files.Keys) == FoldedKeys(f, Tracked(loaded.entries))
            && TotalsOk(loaded.metadata, |PayloadEntries(loaded.entries)|, TotalSize(PayloadEntries(loaded.entries)))
  {
    hide Fold, ReadJsonMapping, LoadEntries, TotalsOk, MetadataHeaderOk, ValidRelative, Verified, FoldsApart, FoldedKeys, Tracked,
      PayloadEntries, TotalSize, EntryKeys;
    EntriesVerified(h, f, t);
  }

  lemma TrackedEntry(entries: seq<ManifestEntry>, e: ManifestEntry)
    ensures MANIFEST_NAME in Tracked(entries) && HASH_NAME in Tracked(entries)
    ensures e in entries ==> e.path in Tracked(entries)
  {
    if e in entries {
      var k :| 0 <= k < |entries| && entries[k] == e;
      assert entries[k].path in (set j | 0 <= j < |entries| :: entries[j].path);
    }
  }

  lemma IntactEntriesVerify(h: Digest.Hash, t: Tree, u: Tree, entries: seq<ManifestEntry>)
    requires SameOn(Tracked(entries), t, u) && forall e :: e in entries ==> Verified(h, t, e)
    ensures forall e :: e in entries ==> Verified(h, u, e)
    ensures SameOn({HASH_NAME, MANIFEST_NAME}, t, u)
  {
    hide Tracked;
    forall e | e in entries ensures Verified(h, u, e) {
      TrackedEntry(entries, e);
    }
    TrackedEntry(entries, ManifestEntry("", 0, ""));
  }

  lemma VerifiedEntriesAreIntact(h: Digest.Hash, t: Tree, u: Tree, entries: seq<ManifestEntry>)
    requires CollisionFreeFor(h, t, u) && SameOn({HASH_NAME, MANIFEST_NAME}, t, u)
    requires forall e :: e in entries ==> Verified(h, t, e) && Verified(h, u, e)
    ensures SameOn(Tracked(entries), t, u)
  {
    forall p | p in Tracked(entries) ensures p in t.files && p in u.files && t.files[p] == u.files[p] {
      if k :| 0 <= k < |entries| && entries[k].path == p {
        assert entries[k] in entries;
        SameHashSameFile(h, t, u, p);
      } else {
        assert p in {HASH_NAME, MANIFEST_NAME};
      }
    }
  }

  /**
   With the hash record intact, a changed copy `u` of an accepted backup is accepted exactly when
   no tracked file is missing or altered, nothing special was added, and every further file folds
   onto a tracked name. What the load returns is then unchanged.
   */
  lemma ChangedBackupLoadsExactly(h: Digest.Hash, f: FoldTable, t: Tree, u: Tree)
    requires Load(h, f, t).Ok? && METADATA_NAME in Tracked(Load(h, f, t).value.entries)
    requires SameOn({HASH_NAME}, t, u) && CollisionFreeFor(h, t, u)
    ensures var tracked := Tracked(Load(h, f, t).value.entries);
            Load(h, f, u).Ok? <==> !u.special && SameOn(tracked, t, u) && Covered(f, u.files.Keys, tracked)
    ensures Load(h, f, u).Ok? ==> Load(h, f, u) == Load(h, f, t)
  {
    hide Fold, Load, Tracked, Covered;
    var tracked := Tracked(Load(h, f, t).value.entries);
    if Load(h, f, u).Ok? {
      AcceptedIsIntact(h, f, t, u);
    }
    if !u.special && SameOn(tracked, t, u) && Covered(f, u.files.Keys, tracked) {
      IntactIsAccepted(h, f, t, u);
    }
  }

  lemma LoadParts(h: Digest.Hash, f: FoldTable, t: Tree)
    requires Load(h, f, t).Ok?
    ensures LoadEntries(h, f, t).Ok?
    ensures var loaded := Load(h, f, t).value;
            LoadEntries(h, f, t).value == (loaded.sha, loaded.entries)
            && CheckLoaded(f, t, loaded.sha, loaded.entries) == Ok(loaded)
            && !t.special && FoldedKeys(f, t.files.Keys) == FoldedKeys(f, Tracked(loaded.entries))
            && Fold(f, METADATA_NAME) in EntryKeys(f, loaded.entries)
  {
    hide Fold, LoadEntries, ReadJsonMapping, MetadataHeaderOk, TotalsOk, Tracked, PayloadEntries, TotalSize, EntryKeys, FoldedKeys;
  }

  lemma SubsetOfSame(names: set<string>, t: Tree, u: Tree)
    requires SameOn(names, t, u)
    ensures names <= t.files.Keys && names <= u.files.Keys
  {
  }

  lemma AcceptedIsIntact(h: Digest.Hash, f: FoldTable, t: Tree, u: Tree)
    requires Load(h, f, t).Ok? && METADATA_NAME in Tracked(Load(h, f, t).value.entries)
    requires SameOn({HASH_NAME}, t, u) && CollisionFreeFor(h, t, u) && Load(h, f, u).Ok?
    ensures var tracked := Tracked(Load(h, f, t).value.entries);
            !u.special && SameOn(tracked, t, u) && Covered(f, u.files.Keys, tracked)
    ensures Load(h, f, u) == Load(h, f, t)
  {
    hide Fold, Load, LoadEntries, ReadHashFile, ReadEntries, Tracked, CheckLoaded, Covered, Verified, ManifestRaws, EntryKeys,
      FoldedKeys, ValidRelative, CollisionFreeFor, FoldsApart;
    LoadParts(h, f, t);
    LoadParts(h, f, u);
    EntriesLoaded(h, f, t);
    EntriesLoaded(h, f, u);
    assert HASH_NAME in {HASH_NAME};
    SameHashSameFile(h, t, u, MANIFEST_NAME);
    assert SameOn({HASH_NAME, MANIFEST_NAME}, t, u);
    SameManifestSameEntries(h, f, t, u);
    EntriesVerified(h, f, t);
    var loaded := Load(h, f, t).value;
    VerifiedEntriesAreIntact(h, t, u, loaded.entries);
    SubsetOfSame(Tracked(loaded.entries), t, u);
    FoldedKeysAgree(f, u.files.Keys, Tracked(loaded.entries));
    SameMetadataSameLoad(f, t, u, loaded.sha, loaded.entries);
  }

  lemma SameMetadataSameLoad(f: FoldTable, t: Tree, u: Tree, sha: string, entries: seq<ManifestEntry>)
    requires SameOn({METADATA_NAME}, t, u) && t.special == u.special
    requires FoldedKeys(f, t.files.Keys) == FoldedKeys(f, u.files.Keys)
    ensures CheckLoaded(f, t, sha, entries) == CheckLoaded(f, u, sha, entries)
  {
    hide Fold, ReadJsonMapping, MetadataHeaderOk, TotalsOk, Tracked, PayloadEntries, TotalSize, EntryKeys, FoldedKeys;
    assert METADATA_NAME in {METADATA_NAME};
  }

  lemma IntactIsAccepted(h: Digest.Hash, f: FoldTable, t: Tree, u: Tree)
    requires Load(h, f, t).Ok? && METADATA_NAME in Tracked(Load(h, f, t).value.entries)
    requires var tracked := Tracked(Load(h, f, t).value.entries);
             !u.special && SameOn(tracked, t, u) && Covered(f, u.files.Keys, tracked)
    ensures Load(h, f, u) == Load(h, f, t)
  {
    hide Fold, LoadEntries, ReadHashFile, ReadEntries, Tracked, CheckLoaded, Covered, Verified, ManifestRaws, EntryKeys,
      FoldedKeys, ValidRelative, FoldsApart;
    LoadParts(h, f, t);
    EntriesVerified(h, f, t);
    var loaded := Load(h, f, t).value;
    IntactEntriesVerify(h, t, u, loaded.entries);
    SameManifestSameEntries(h, f, t, u);
    SubsetOfSame(Tracked(loaded.entries), t, u);
    FoldedKeysAgree(f, u.files.Keys, Tracked(loaded.entries));
    SameMetadataSameLoad(f, t, u, loaded.sha, loaded.entries);
  }
}
