/**
 What staging, publishing, recognizing, validating and cleaning up come to, said of names, files and
 directories.
 */
module AssetOutcomes {
  import opened Common
  import Digest
  import opened AssetStore

  // -------------------------------------------------------------------------- names

  /** The same text, except that hexadecimal letters may be upper case. */
  predicate CaseVariant(name: string, lower: string) {
    |name| == |lower| &&
    forall i :: 0 <= i < |name| ==> name[i] == lower[i] || ('A' <= name[i] <= 'F' && lower[i] as int == name[i] as int + 32)
  }

  lemma LoweredIs(s: string, lower: string)
    requires IsCanonicalUuid(lower)
    ensures LowerHexOf(s) == lower <==> CaseVariant(s, lower)
  {
    if LowerHexOf(s) == lower {
      forall i | 0 <= i < |s| ensures s[i] == lower[i] || ('A' <= s[i] <= 'F' && lower[i] as int == s[i] as int + 32) {
        assert LowerHexOf(s)[i] == lower[i];
      }
    }
    if CaseVariant(s, lower) {
      forall i | 0 <= i < |s| ensures LowerHexOf(s)[i] == lower[i] {}
    }
  }

  lemma VariantParts(name: string, asset: string, attempt: string)
    requires |asset| == 36 && |attempt| == 36
    ensures CaseVariant(name, asset + "-" + attempt)
            <==> |name| == 73 && name[36] == '-' && CaseVariant(name[..36], asset) && CaseVariant(name[37..], attempt)
  {
    var whole := asset + "-" + attempt;
    assert whole[36] == '-' && whole[..36] == asset && whole[37..] == attempt;
    if |name| == 73 {
      assert forall i :: 0 <= i < 36 ==> name[..36][i] == name[i] && whole[i] == asset[i];
      assert forall i :: 0 <= i < 36 ==> name[37..][i] == name[i + 37] && whole[i + 37] == attempt[i];
      if CaseVariant(name[..36], asset) && CaseVariant(name[37..], attempt) && name[36] == '-' {
        forall i | 0 <= i < 73 ensures name[i] == whole[i] || ('A' <= name[i] <= 'F' && whole[i] as int == name[i] as int + 32) {
          if i < 36 { assert name[..36][i] == name[i]; } else if i > 36 { assert name[37..][i - 37] == name[i]; }
        }
      }
      if CaseVariant(name, whole) {
        forall i | 0 <= i < 36
          ensures name[37..][i] == attempt[i] || ('A' <= name[37..][i] <= 'F' && attempt[i] as int == name[37..][i] as int + 32)
        {
          assert name[37..][i] == name[i + 37] && whole[i + 37] == attempt[i];
        }
      }
    }
  }

  /** A directory is recognized exactly when its name is the two identifiers joined, in whatever case. */
  lemma RecognizedExactly(name: string, asset: string, attempt: string)
    ensures StageIdentity(name) == Some((asset, attempt))
            <==> IsCanonicalUuid(asset) && IsCanonicalUuid(attempt) && CaseVariant(name, asset + "-" + attempt)
  {
    hide IsCanonicalUuid, CaseVariant, LowerHexOf;
    if IsCanonicalUuid(asset) && IsCanonicalUuid(attempt) {
      UuidLength(asset);
      UuidLength(attempt);
      VariantParts(name, asset, attempt);
      if |name| == 73 {
        LoweredIs(name[..36], asset);
        LoweredIs(name[37..], attempt);
      }
    }
  }

  lemma UuidLength(s: string)
    requires IsCanonicalUuid(s)
    ensures |s| == 36
  {
  }

  /** The clean-up of an attempt takes exactly the directories named after an asset and this attempt. */
  lemma TakenExactly(name: string, attempt: string)
    requires IsCanonicalUuid(attempt)
    ensures BelongsTo(name, attempt) <==> exists asset :: IsCanonicalUuid(asset) && CaseVariant(name, asset + "-" + attempt)
  {
    hide IsCanonicalUuid, CaseVariant, LowerHexOf, StageIdentity;
    UuidIsLower(attempt);
    if BelongsTo(name, attempt) {
      RecognizedExactly(name, StageIdentity(name).value.0, attempt);
    }
    if asset :| IsCanonicalUuid(asset) && CaseVariant(name, asset + "-" + attempt) {
      RecognizedExactly(name, asset, attempt);
    }
  }

  const HEX_DIGITS := "0123456789abcdefABCDEF"

  lemma SafeExactly(s: string)
    ensures SafeComponent(s) <==> s != "" && forall c :: c in s ==> c in HEX_DIGITS || c == '-'
  {
    forall c: char ensures c in HEX_DIGITS <==> IsLowerHex(c) || 'A' <= c <= 'F' { IsHexDigit(c); }
    hide HEX_DIGITS;
  }

  lemma IsHexDigit(c: char)
    ensures c in HEX_DIGITS <==> IsLowerHex(c) || 'A' <= c <= 'F'
  {
    var digits := HEX_DIGITS;
    assert digits[0] == '0' && digits[1] == '1' && digits[2] == '2' && digits[3] == '3' && digits[4] == '4' && digits[5] == '5';
    assert digits[6] == '6' && digits[7] == '7' && digits[8] == '8' && digits[9] == '9' && digits[10] == 'a' && digits[11] == 'b';
    assert digits[12] == 'c' && digits[13] == 'd' && digits[14] == 'e' && digits[15] == 'f' && digits[16] == 'A' && digits[17] == 'B';
    assert digits[18] == 'C' && digits[19] == 'D' && digits[20] == 'E' && digits[21] == 'F' && |digits| == 22;
  }

  // --------------------------------------------------------------------- validation

  /** Every file the record names is there with the recorded size and digest, and so is the manifest. */
  ghost predicate AsRecorded(h: Digest.Hash, staged: StagedAsset, files: Files) {
    && (forall a :: a == staged.original || a in staged.artifacts ==>
          a.path in files && |files[a.path]| == a.size && h(files[a.path]) == a.sha)
    && staged.manifestPath in files && h(files[staged.manifestPath]) == staged.manifestSha
  }

  lemma ValidatesExactly(h: Digest.Hash, staged: StagedAsset, files: Files)
    ensures Validates(h, staged, files) <==> AsRecorded(h, staged, files)
  {
    if Validates(h, staged, files) {
      forall a | a in staged.artifacts ensures Holds(h, files, a) {
        var i :| 0 <= i < |staged.artifacts| && staged.artifacts[i] == a;
      }
    }
  }

  /**
   A publication succeeds exactly when the identifiers are safe, the directory carries their name and
   either the asset is staged and not published or published and no longer staged, with every recorded
   file intact; it then stands published with the staged files.
   */
  lemma PublishesExactly(h: Digest.Hash, d: Disk, staged: StagedAsset)
    ensures var (after, r) := Published(h, d, staged);
            var name := staged.assetId + "-" + staged.attemptId;
            var published, waiting := staged.assetId in d.assets, name in d.staging;
            var named := SafeComponent(staged.assetId) && SafeComponent(staged.attemptId) && staged.directory == name;
            && (r.Ok? <==> && named && published != waiting
                           && AsRecorded(h, staged, if published then d.assets[staged.assetId] else d.staging[name]))
            && (r == Err(Collision) <==> named && published && waiting)
            && (r == Err(Missing) <==> named && !published && !waiting)
            && after == (if named && !published && waiting then Disk(d.staging - {name}, d.assets[staged.assetId := d.staging[name]]) else d)
  {
    hide SafeComponent, Validates, AsRecorded;
    var name := StageName(staged.assetId, staged.attemptId);
    if staged.assetId in d.assets { ValidatesExactly(h, staged, d.assets[staged.assetId]); }
    if name in d.staging { ValidatesExactly(h, staged, d.staging[name]); }
  }

  // ------------------------------------------------------------------------- staging

  /** The directory holds the first `done` files and, of the next one, at most its beginning. */
  ghost predicate HoldsFirst(files: Files, contents: seq<(string, bytes)>, done: nat)
    requires done <= |contents|
  {
    && (forall i :: 0 <= i < done ==> contents[i].0 in files && files[contents[i].0] == contents[i].1)
    && forall p :: p in files ==>
         || (exists i :: 0 <= i < done && contents[i].0 == p)
         || (done < |contents| && contents[done].0 == p && files[p] <= contents[done].1)
  }

  ghost predicate PathsApart(contents: seq<(string, bytes)>) {
    forall i, j :: 0 <= i < j < |contents| ==> contents[i].0 != contents[j].0
  }

  lemma {:induction false} WrittenFirst(contents: seq<(string, bytes)>, done: nat)
    requires PathsApart(contents) && done <= |contents|
    ensures forall i :: 0 <= i < done ==> contents[i].0 in WrittenFully(contents, done)
                                          && WrittenFully(contents, done)[contents[i].0] == contents[i].1
    ensures forall p :: p in WrittenFully(contents, done) ==> exists i :: 0 <= i < done && contents[i].0 == p
  {
    if done > 0 { WrittenFirst(contents, done - 1); }
  }

  lemma StagedHolds(contents: seq<(string, bytes)>, changes: nat, part: nat)
    requires PathsApart(contents) && 0 < changes <= 1 + 2 * |contents|
    ensures StagedTree(contents, changes, part).Some?
    ensures HoldsFirst(StagedTree(contents, changes, part).value, contents, (changes - 1) / 2)
  {
    hide WrittenFully;
    WrittenFirst(contents, (changes - 1) / 2);
  }

  /**
   What a staging leaves on the disk. A collision changes nothing. Otherwise only its own directory is
   touched: complete when nothing cut the staging, as far as it was written when the process died, and
   after an exception as far as its removal got.
   */
  lemma StagingLeaves(w: World, assetId: string, attemptId: string, contents: seq<(string, bytes)>, cut: Cut, part: nat, cleanup: Removal)
    requires PathsApart(contents) && (cut == Never || cut.after <= 1 + 2 * |contents|)
    ensures var after := AfterStage(w, assetId, attemptId, contents, cut, part, cleanup).disk;
            var name := assetId + "-" + attemptId;
            var collides := name in w.disk.staging || assetId in w.disk.assets;
            && after.assets == w.disk.assets && (collides ==> after == w.disk)
            && (forall other :: other != name ==>
                  (other in after.staging <==> other in w.disk.staging)
                  && (other in w.disk.staging ==> after.staging[other] == w.disk.staging[other]))
            && (!collides && cut == Never ==> name in after.staging && HoldsFirst(after.staging[name], contents, |contents|))
            && (!collides && cut != Never && cut.after == 0 ==> name !in after.staging)
            && (!collides && cut.Dies? && cut.after > 0 ==>
                  name in after.staging && HoldsFirst(after.staging[name], contents, (cut.after - 1) / 2))
            && (!collides && cut.Raises? && cut.after > 0 ==> (name in after.staging <==> cleanup.count <= |cleanup.order|))
  {
    hide WrittenFully, StagedTree, HoldsFirst;
    WrittenWhole(contents);
    if cut == Never {
    } else if cut.after > 0 {
      StagedHolds(contents, cut.after, part);
    } else {
      NothingWritten(contents, part);
    }
  }

  lemma WrittenWhole(contents: seq<(string, bytes)>)
    requires PathsApart(contents)
    ensures HoldsFirst(WrittenFully(contents, |contents|), contents, |contents|)
  {
    WrittenFirst(contents, |contents|);
  }
}
