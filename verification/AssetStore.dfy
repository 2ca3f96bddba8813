/** The asset store: staging, the publishing rename, and removal. */
module AssetStore {
  /*
   The process may die after any change to the disk.

   `staging` and `assets` are the directories below `assets/.staging` and `assets`; each maps a
   directory name to its files, by path inside that directory.
   */

  import opened Common
  import Digest

  type Files = map<string, bytes>

  /** One recorded file: path inside the asset, size, digest. */
  datatype Artifact = Artifact(path: string, size: nat, sha: string)

  /** What `stage_file` returns and `publish_staged` takes. */
  datatype StagedAsset = StagedAsset(
    assetId: string, attemptId: string, directory: string,
    original: Artifact, manifestPath: string, manifestSha: string, artifacts: seq<Artifact>)

  datatype Fault = UnsafeIdentifier | IdentityMismatch | Collision | Missing | Incomplete | Storage

  datatype Outcome<+T> = Done(value: T) | Failed(fault: Fault) | Died

  /** Where an operation is cut short: nowhere, by the process dying, or by an exception. */
  datatype Cut = Never | Dies(after: nat) | Raises(after: nat)

  // ------------------------------------------------------------------------ names

  predicate SafeComponent(s: string) {
    s != "" && forall i :: 0 <= i < |s| ==> IsLowerHex(s[i]) || 'A' <= s[i] <= 'F' || s[i] == '-'
  }

  function StageName(assetId: string, attemptId: string): string {
    assetId + "-" + attemptId
  }

  function LowerHexOf(s: string): (r: string)
    ensures |r| == |s|
  {
    seq(|s|, i requires 0 <= i < |s| => if 'A' <= s[i] <= 'Z' then s[i] - 'A' + 'a' else s[i])
  }

  /** `_stage_identity`: the asset and attempt a staging directory's name stands for. */
  function StageIdentity(name: string): Option<(string, string)> {
    if |name| != 73 || name[36] != '-' then None
    else
      var asset, attempt := LowerHexOf(name[..36]), LowerHexOf(name[37..]);
      if IsCanonicalUuid(asset) && IsCanonicalUuid(attempt) then Some((asset, attempt)) else None
  }

  lemma UuidIsLower(s: string)
    requires IsCanonicalUuid(s)
    ensures LowerHexOf(s) == s
  {
    forall i | 0 <= i < |s| ensures LowerHexOf(s)[i] == s[i] {
      assert i < 36;
    }
  }

  /** Recognizing a staging directory inverts naming it. */
  lemma StageIdentityInvertsName(assetId: string, attemptId: string)
    requires IsCanonicalUuid(assetId) && IsCanonicalUuid(attemptId)
    ensures StageIdentity(StageName(assetId, attemptId)) == Some((assetId, attemptId))
  {
    var name := StageName(assetId, attemptId);
    assert name[..36] == assetId && name[36] == '-' && name[37..] == attemptId;
    UuidIsLower(assetId);
    UuidIsLower(attemptId);
  }

  lemma StageIdentityNames(name: string)
    requires StageIdentity(name).Some?
    ensures LowerHexOf(name) == StageName(StageIdentity(name).value.0, StageIdentity(name).value.1)
  {
    var (asset, attempt) := StageIdentity(name).value;
    assert name == name[..36] + "-" + name[37..];
    assert StageName(asset, attempt)[36] == '-';
    forall i | 0 <= i < 73 ensures LowerHexOf(name)[i] == StageName(asset, attempt)[i] {
    }
  }

  lemma StageNamesApart(a: string, x: string, b: string, y: string)
    requires IsCanonicalUuid(a) && IsCanonicalUuid(b) && StageName(a, x) == StageName(b, y)
    ensures a == b && x == y
  {
    assert StageName(a, x)[..36] == a && StageName(b, y)[..36] == b;
    assert StageName(a, x)[37..] == x && StageName(b, y)[37..] == y;
  }

  // ------------------------------------------------------------- writing and removing

  /** The files on disk after `done` files were written in full and `cut` bytes of the next, if any. */
  function Written(contents: seq<(string, bytes)>, done: nat, part: Option<nat>): Files
    requires done <= |contents|
  {
    if part.Some? && done < |contents| then
      var (path, content) := contents[done];
      WrittenFully(contents, done)[path := content[..if part.value <= |content| then part.value else |content|]]
    else WrittenFully(contents, done)
  }

  function WrittenFully(contents: seq<(string, bytes)>, done: nat): Files
    requires done <= |contents|
  {
    if done == 0 then map[] else WrittenFully(contents, done - 1)[contents[done - 1].0 := contents[done - 1].1]
  }

  function Dropped(order: seq<string>, count: nat): set<string>
    requires count <= |order|
  {
    set p | p in order[..count]
  }

  /** `rmtree` in the order the files are met, stopped after `count` changes; the last one removes the directory. */
  function RemoveTree(files: Files, order: seq<string>, count: nat): Option<Files> {
    if count > |order| then None else Some(files - Dropped(order, count))
  }

  ghost predicate Lists(order: seq<string>, files: Files) {
    forall p :: p in files <==> p in order
  }

  function SetTree(trees: map<string, Files>, name: string, tree: Option<Files>): map<string, Files> {
    if tree.Some? then trees[name := tree.value] else trees - {name}
  }

  /** A removal stopped by an exception or a crash leaves the directory complete exactly when nothing was removed. */
  lemma RemoveTreeIsExact(files: Files, order: seq<string>, count: nat)
    requires Lists(order, files)
    ensures RemoveTree(files, order, count).None? <==> count > |order|
    ensures RemoveTree(files, order, count) == Some(files) <==> count == 0
    ensures 0 < count <= |order| ==> exists p :: p in files && p !in RemoveTree(files, order, count).value
  {
    if 0 < count <= |order| {
      assert order[..count][0] == order[0];
      assert order[0] in order && order[0] in files;
      assert order[0] !in RemoveTree(files, order, count).value;
    } else if count == 0 {
      assert order[..0] == [] && Dropped(order, 0) == {};
      assert files - Dropped(order, 0) == files;
    }
  }

  // ----------------------------------------------------------------------- validation

  predicate Holds(h: Digest.Hash, files: Files, a: Artifact) {
    a.path in files && |files[a.path]| == a.size && h(files[a.path]) == a.sha
  }

  /** `_validate_published_asset`: every recorded file is there, with its recorded size and digest. */
  predicate Validates(h: Digest.Hash, staged: StagedAsset, files: Files) {
    && Holds(h, files, staged.original)
    && staged.manifestPath in files && h(files[staged.manifestPath]) == staged.manifestSha
    && forall i :: 0 <= i < |staged.artifacts| ==> Holds(h, files, staged.artifacts[i])
  }

  // ---------------------------------------------------------------------------- store

  datatype Disk = Disk(staging: map<string, Files>, assets: map<string, Files>)

  /** Changes staging makes: one for the directory, then two for each file (part of it, all of it). */
  function StageChanges(contents: seq<(string, bytes)>): nat {
    1 + 2 * |contents|
  }

  function StagedTree(contents: seq<(string, bytes)>, changes: nat, part: nat): Option<Files>
    requires changes <= StageChanges(contents)
  {
    if changes == 0 then None
    else Some(Written(contents, (changes - 1) / 2, if (changes - 1) % 2 == 1 then Some(part) else None))
  }

  /** `publish_staged` on a disk that nobody else changes: new disk and result. */
  function Published(h: Digest.Hash, d: Disk, staged: StagedAsset): (Disk, Result<StagedAsset, Fault>) {
    var name := StageName(staged.assetId, staged.attemptId);
    if !SafeComponent(staged.assetId) || !SafeComponent(staged.attemptId) then (d, Err(UnsafeIdentifier))
    else if staged.directory != name then (d, Err(IdentityMismatch))
    else if staged.assetId in d.assets then
      if name in d.staging then (d, Err(Collision))
      else if Validates(h, staged, d.assets[staged.assetId]) then (d, Ok(staged)) else (d, Err(Incomplete))
    else if name !in d.staging then (d, Err(Missing))
    else
      var moved := Disk(d.staging - {name}, d.assets[staged.assetId := d.staging[name]]);
      if Validates(h, staged, d.staging[name]) then (moved, Ok(staged)) else (moved, Err(Incomplete))
  }

  /** What becomes of the one rename of a publication. */
  datatype RenameFate = RenameDone | RenameRaises | DiesBefore | DiesAfter

  /** Publishing comes to its rename: the staged directory is there, the published one is not. */
  predicate Renames(d: Disk, staged: StagedAsset) {
    && SafeComponent(staged.assetId) && SafeComponent(staged.attemptId)
    && staged.directory == StageName(staged.assetId, staged.attemptId)
    && staged.assetId !in d.assets && staged.directory in d.staging
  }

  function AnswerOf(r: Result<StagedAsset, Fault>): Outcome<StagedAsset> {
    match r
    case Ok(v) => Done(v)
    case Err(e) => Failed(e)
  }

  /** How far removing one directory gets. */
  datatype Removal = Removal(order: seq<string>, count: nat)

  predicate Completes(r: Removal) {
    r.count > |r.order|
  }

  /** `remove_pending_asset`: the staging directory, then the published one. */
  function Removed(d: Disk, assetId: string, attemptId: Option<string>, stage: Removal, final: Removal): Disk {
    var staging :=
      if attemptId.Some? && StageName(assetId, attemptId.value) in d.staging then
        SetTree(d.staging, StageName(assetId, attemptId.value),
                RemoveTree(d.staging[StageName(assetId, attemptId.value)], stage.order, stage.count))
      else d.staging;
    var assets :=
      if assetId in d.assets then SetTree(d.assets, assetId, RemoveTree(d.assets[assetId], final.order, final.count)) else d.assets;
    Disk(staging, assets)
  }

  class Store {
    var staging: map<string, Files>
    var assets: map<string, Files>

    constructor (d: Disk)
      ensures staging == d.staging && assets == d.assets
    {
      staging, assets := d.staging, d.assets;
    }

    function View(): Disk
      reads this
    {
      Disk(staging, assets)
    }

    /**
     The disk side of `stage_file`: make the directory, then write every file in turn. An exception
     removes the directory again, as far as `cleanup` gets.
     */
    method StageFiles(assetId: string, attemptId: string, contents: seq<(string, bytes)>, cut: Cut, part: nat, cleanup: Removal)
      returns (r: Outcome<Files>)
      requires cut.Dies? || cut.Raises? ==> cut.after <= StageChanges(contents)
      modifies this
      ensures assets == old(assets)
      ensures StageName(assetId, attemptId) in old(staging) || assetId in old(assets) ==>
                r == Failed(Collision) && staging == old(staging)
      ensures StageName(assetId, attemptId) !in old(staging) && assetId !in old(assets) ==>
                && staging == StageResult(old(View()), StageName(assetId, attemptId), contents, cut, part, cleanup)
                && r == if cut.Never? then Done(WrittenFully(contents, |contents|)) else if cut.Dies? then Died else Failed(Storage)
    {
      hide Written, WrittenFully, StagedTree, RemoveTree, StageName;
      var name := StageName(assetId, attemptId);
      if name in staging || assetId in assets {
        return Failed(Collision);
      }
      NothingWritten(contents, part);
      if cut != Never && cut.after == 0 {
        return if cut.Dies? then Died else Failed(Storage);
      }
      staging := staging[name := map[]];
      var tree := WriteFiles(name, contents, cut, part);
      if cut.Never? {
        return Done(tree);
      }
      r := Interrupt(name, cut, cleanup);
    }

    /** Write the files into a fresh directory, up to the cut. */
    method WriteFiles(name: string, contents: seq<(string, bytes)>, cut: Cut, part: nat) returns (tree: Files)
      requires name in staging && staging[name] == map[]
      requires cut != Never ==> 0 < cut.after <= StageChanges(contents)
      modifies this`staging
      ensures staging == old(staging)[name := tree]
      ensures if cut.Never? then tree == WrittenFully(contents, |contents|) else StagedTree(contents, cut.after, part) == Some(tree)
    {
      hide Written, WrittenFully, StagedTree;
      NothingWritten(contents, part);
      tree := map[];
      var done := 0;
      while done < |contents| && (cut.Never? || 1 + 2 * done < cut.after)
        invariant done <= |contents|
        invariant cut != Never ==> 1 + 2 * done <= cut.after
        invariant tree == WrittenFully(contents, done) && staging == old(staging)[name := tree]
      {
        var (path, content) := contents[done];
        if cut != Never && 2 + 2 * done == cut.after {
          StoppedMidway(contents, done, cut.after, part);
          tree := PutFile(name, tree, path, content[..if part <= |content| then part else |content|]);
          return;
        }
        FileWritten(contents, done);
        tree := PutFile(name, tree, path, content);
        done := done + 1;
      }
      if cut != Never {
        StoppedBetween(contents, done, cut.after, part);
      }
    }

    /** One write below a staging directory whose tree so far is `tree`. */
    method PutFile(name: string, tree: Files, path: string, content: bytes) returns (next: Files)
      requires name in staging && staging[name] == tree
      modifies this`staging
      ensures next == tree[path := content] && staging == old(staging)[name := next]
    {
      next := tree[path := content];
      staging := staging[name := next];
    }

    /** Dying leaves the directory as it is; an exception removes it. */
    method Interrupt(name: string, cut: Cut, cleanup: Removal) returns (r: Outcome<Files>)
      requires cut != Never && name in staging
      modifies this`staging
      ensures cut.Dies? ==> r.Died? && staging == old(staging)
      ensures cut.Raises? ==> r == Failed(Storage)
                              && staging == SetTree(old(staging), name, RemoveTree(old(staging)[name], cleanup.order, cleanup.count))
    {
      if cut.Dies? {
        return Died;
      }
      staging := SetTree(staging, name, RemoveTree(staging[name], cleanup.order, cleanup.count));
      return Failed(Storage);
    }

    /** `publish_staged`: the rename, if it comes to it, may raise, and the process may die before or after it. */
    method PublishStaged(h: Digest.Hash, staged: StagedAsset, fate: RenameFate) returns (r: Outcome<StagedAsset>)
      modifies this
      ensures !Renames(old(View()), staged) ==> View() == old(View())
      ensures !Renames(old(View()), staged) && fate != DiesAfter ==>
                r == AnswerOf(Published(h, old(View()), staged).1)
      ensures Renames(old(View()), staged) ==>
                match fate
                case RenameDone => View() == Published(h, old(View()), staged).0
                                      && r == AnswerOf(Published(h, old(View()), staged).1)
                case RenameRaises => View() == old(View()) && r == Failed(Storage)
                case DiesBefore => View() == old(View()) && r == Died
                case DiesAfter => View() == Published(h, old(View()), staged).0 && r == Died
    {
      var name := StageName(staged.assetId, staged.attemptId);
      if !SafeComponent(staged.assetId) || !SafeComponent(staged.attemptId) {
        return Failed(UnsafeIdentifier);
      }
      if staged.directory != name {
        return Failed(IdentityMismatch);
      }
      if staged.assetId in assets {
        if name in staging {
          return Failed(Collision);
        }
      } else {
        if name !in staging {
          return Failed(Missing);
        }
        if fate == DiesBefore {
          return Died;
        }
        if fate == RenameRaises {
          return Failed(Storage);
        }
        staging, assets := staging - {name}, assets[staged.assetId := staging[name]];
      }
      if fate == DiesAfter {
        return Died;
      }
      var valid := ValidatePublished(h, staged, assets[staged.assetId]);
      return if valid then Done(staged) else Failed(Incomplete);
    }

    /** `remove_pending_asset`: each tree as far as its removal gets; a failure does not stop the second one. */
    method RemovePendingAsset(assetId: string, attemptId: Option<string>, stage: Removal, final: Removal) returns (r: Outcome<()>)
      requires SafeComponent(assetId) && (attemptId.Some? ==> SafeComponent(attemptId.value))
      modifies this
      ensures View() == Removed(old(View()), assetId, attemptId, stage, final)
      ensures r == if assetId !in assets && (attemptId.Some? ==> StageName(assetId, attemptId.value) !in staging) then Done(())
                   else Failed(Storage)
    {
      var failed := false;
      if attemptId.Some? {
        var name := StageName(assetId, attemptId.value);
        if name in staging {
          var left := RemoveTree(staging[name], stage.order, stage.count);
          failed := left.Some?;
          staging := SetTree(staging, name, left);
        }
      }
      if assetId in assets {
        var left := RemoveTree(assets[assetId], final.order, final.count);
        failed := failed || left.Some?;
        assets := SetTree(assets, assetId, left);
      }
      return if failed then Failed(Storage) else Done(());
    }

    /**
     The staging half of `cleanup_attempt_identity`: every directory recognized as the attempt's is
     removed in the order of the scan; removing the one after the first `done` may stop.
     */
    method CleanupAttempt(attemptId: string, listing: seq<string>, done: nat, last: Removal) returns (r: Outcome<()>)
      requires Distinct(listing) && forall name :: name in staging <==> name in listing
      modifies this`staging
      ensures staging == CleanedUp(old(staging), Matching(listing, attemptId), done, last)
      ensures r.Done? <==> done >= |Matching(listing, attemptId)| || Completes(last)
      ensures r.Done? ==> staging == map name | name in old(staging) && !BelongsTo(name, attemptId) :: old(staging)[name]
    {
      var matching: seq<string> := [];
      for k := 0 to |listing|
        invariant matching == Matching(listing[..k], attemptId)
      {
        assert listing[..k + 1][..k] == listing[..k] && Last(listing[..k + 1]) == listing[k];
        if BelongsTo(listing[k], attemptId) {
          matching := matching + [listing[k]];
        }
      }
      assert listing[..|listing|] == listing;
      hide Matching, BelongsTo, CleanedUp;
      MatchingIsExact(listing, attemptId);
      r := RemoveEach(matching, done, last);
      if r.Done? {
        NamesRemoved(old(staging), matching, done, last);
      }
    }

    /** Remove directories that are there, one after the other, until one stops. */
    method RemoveEach(names: seq<string>, done: nat, last: Removal) returns (r: Outcome<()>)
      requires Distinct(names) && forall name :: name in names ==> name in staging
      modifies this`staging
      ensures staging == CleanedUp(old(staging), names, done, last)
      ensures r == if done >= |names| || Completes(last) then Done(()) else Failed(Storage)
    {
      hide RemoveTree;
      for k := 0 to |names|
        invariant k <= done || Completes(last)
        invariant staging == old(staging) - Dropped(names, k)
      {
        DropNext(names, k);
        var reach := if k < done then Completed() else last;
        RemovalEnds(staging[names[k]], reach);
        staging := SetTree(staging, names[k], RemoveTree(staging[names[k]], reach.order, reach.count));
        if !Completes(reach) {
          return Failed(Storage);
        }
      }
      DropAll(names);
      return Done(());
    }
  }

  lemma DropNext(names: seq<string>, k: nat)
    requires Distinct(names) && k < |names|
    ensures names[k] !in Dropped(names, k) && Dropped(names, k + 1) == Dropped(names, k) + {names[k]}
  {
    assert names[..k + 1] == names[..k] + [names[k]];
  }

  lemma DropAll(names: seq<string>)
    ensures Dropped(names, |names|) == set name | name in names
  {
    assert names[..|names|] == names;
  }

  lemma RemovalEnds(files: Files, r: Removal)
    ensures RemoveTree(files, r.order, r.count).None? <==> Completes(r)
  {
  }

  lemma NamesRemoved(staging: map<string, Files>, names: seq<string>, done: nat, last: Removal)
    requires done >= |names| || Completes(last)
    ensures CleanedUp(staging, names, done, last) == map name | name in staging && name !in names :: staging[name]
  {
  }

  predicate BelongsTo(name: string, attemptId: string) {
    StageIdentity(name).Some? && StageIdentity(name).value.1 == LowerHexOf(attemptId)
  }

  /** The attempt's directories, in the order of the scan. */
  function Matching(listing: seq<string>, attemptId: string): seq<string> {
    if listing == [] then []
    else Matching(listing[..|listing| - 1], attemptId) + if BelongsTo(Last(listing), attemptId) then [Last(listing)] else []
  }

  function Completed(): Removal {
    Removal([], 1)
  }

  /** The first `done` directories are gone; the next one is removed as far as `last` gets, and there it stops or goes on. */
  function CleanedUp(staging: map<string, Files>, names: seq<string>, done: nat, last: Removal): map<string, Files> {
    if done >= |names| || Completes(last) then staging - set name | name in names
    else
      var gone := staging - Dropped(names, done);
      if names[done] in gone then SetTree(gone, names[done], RemoveTree(gone[names[done]], last.order, last.count)) else gone
  }

  lemma {:induction false} MatchingIsExact(listing: seq<string>, attemptId: string)
    requires Distinct(listing)
    ensures Distinct(Matching(listing, attemptId))
    ensures forall name :: name in Matching(listing, attemptId) <==> name in listing && BelongsTo(name, attemptId)
  {
    hide BelongsTo;
    if listing != [] {
      var front := listing[..|listing| - 1];
      MatchingIsExact(front, attemptId);
      assert listing == front + [Last(listing)];
      assert Last(listing) !in front;
    }
  }

  method ValidatePublished(h: Digest.Hash, staged: StagedAsset, files: Files) returns (valid: bool)
    ensures valid <==> Validates(h, staged, files)
  {
    if !Holds(h, files, staged.original) || staged.manifestPath !in files || h(files[staged.manifestPath]) != staged.manifestSha {
      return false;
    }
    for i := 0 to |staged.artifacts|
      invariant forall j :: 0 <= j < i ==> Holds(h, files, staged.artifacts[j])
    {
      if !Holds(h, files, staged.artifacts[i]) {
        return false;
      }
    }
    return true;
  }

  lemma NothingWritten(contents: seq<(string, bytes)>, part: nat)
    ensures WrittenFully(contents, 0) == map[] && StagedTree(contents, 0, part) == None
  {
  }

  lemma FileWritten(contents: seq<(string, bytes)>, done: nat)
    requires done < |contents|
    ensures WrittenFully(contents, done + 1) == WrittenFully(contents, done)[contents[done].0 := contents[done].1]
  {
  }

  lemma StoppedMidway(contents: seq<(string, bytes)>, done: nat, after: nat, part: nat)
    requires done < |contents| && after == 2 + 2 * done
    ensures var (path, content) := contents[done];
            StagedTree(contents, after, part)
            == Some(WrittenFully(contents, done)[path := content[..if part <= |content| then part else |content|]])
  {
  }

  lemma StoppedBetween(contents: seq<(string, bytes)>, done: nat, after: nat, part: nat)
    requires done <= |contents| && after == 1 + 2 * done
    ensures StagedTree(contents, after, part) == Some(WrittenFully(contents, done))
  {
  }

  /** The record `stage_file` derives from the tree it has written. */
  function RecordOf(h: Digest.Hash, assetId: string, attemptId: string, tree: Files, original: string, manifest: string,
                    artifacts: seq<string>): StagedAsset
    requires original in tree && manifest in tree && forall i :: 0 <= i < |artifacts| ==> artifacts[i] in tree
  {
    StagedAsset(assetId, attemptId, StageName(assetId, attemptId),
                Artifact(original, |tree[original]|, h(tree[original])), manifest, h(tree[manifest]),
                seq(|artifacts|, i requires 0 <= i < |artifacts| =>
                  Artifact(artifacts[i], |tree[artifacts[i]]|, h(tree[artifacts[i]]))))
  }

  /** Publishing what was staged succeeds, moves the tree and nothing else. */
  lemma StagedAssetPublishes(h: Digest.Hash, d: Disk, assetId: string, attemptId: string, original: string, manifest: string,
                             artifacts: seq<string>)
    requires SafeComponent(assetId) && SafeComponent(attemptId) && assetId !in d.assets && StageName(assetId, attemptId) in d.staging
    requires var tree := d.staging[StageName(assetId, attemptId)];
             original in tree && manifest in tree && forall i :: 0 <= i < |artifacts| ==> artifacts[i] in tree
    ensures var name := StageName(assetId, attemptId);
            var staged := RecordOf(h, assetId, attemptId, d.staging[name], original, manifest, artifacts);
            Published(h, d, staged) == (Disk(d.staging - {name}, d.assets[assetId := d.staging[name]]), Ok(staged))
  {
    hide StageName, SafeComponent;
  }

  /** Publishing again after success changes nothing and returns the same value. */
  lemma PublishIsIdempotent(h: Digest.Hash, d: Disk, staged: StagedAsset)
    requires Published(h, d, staged).1.Ok?
    ensures var (after, r) := Published(h, d, staged); Published(h, after, staged) == (after, r)
    ensures var after := Published(h, d, staged).0;
            staged.assetId in after.assets && Validates(h, staged, after.assets[staged.assetId])
            && StageName(staged.assetId, staged.attemptId) !in after.staging
  {
    hide StageName, SafeComponent, Validates;
  }

  /**
   Removal touches the two locations of its asset and nothing else. Each of the two directories, if
   it was there, is afterwards absent exactly when its removal ran to the end, and as it was exactly
   when its removal never began.
   */
  lemma RemovalIsExact(d: Disk, assetId: string, attemptId: string, stage: Removal, final: Removal)
    requires assetId in d.assets ==> Lists(final.order, d.assets[assetId])
    requires StageName(assetId, attemptId) in d.staging ==> Lists(stage.order, d.staging[StageName(assetId, attemptId)])
    ensures var after, name := Removed(d, assetId, Some(attemptId), stage, final), StageName(assetId, attemptId);
            && (assetId in d.assets ==>
                  && (assetId !in after.assets <==> Completes(final))
                  && (assetId in after.assets && after.assets[assetId] == d.assets[assetId] <==> final.count == 0))
            && (name in d.staging ==>
                  && (name !in after.staging <==> Completes(stage))
                  && (name in after.staging && after.staging[name] == d.staging[name] <==> stage.count == 0))
            && (assetId !in d.assets ==> assetId !in after.assets) && (name !in d.staging ==> name !in after.staging)
            && (forall id :: id != assetId ==> (id in after.assets <==> id in d.assets) && (id in d.assets ==> after.assets[id] == d.assets[id]))
            && (forall other :: other != name ==>
                  (other in after.staging <==> other in d.staging) && (other in d.staging ==> after.staging[other] == d.staging[other]))
  {
    hide StageName, RemoveTree;
    if assetId in d.assets {
      RemoveTreeIsExact(d.assets[assetId], final.order, final.count);
    }
    if StageName(assetId, attemptId) in d.staging {
      RemoveTreeIsExact(d.staging[StageName(assetId, attemptId)], stage.order, stage.count);
    }
  }

  // ---------------------------------------------------------------------------- runs

  datatype Op =
    | StageOp(assetId: string, attemptId: string, contents: seq<(string, bytes)>, cut: Cut, part: nat, cleanup: Removal)
    | PublishOp(staged: StagedAsset, fate: RenameFate)
    | RemoveOp(asset: string, attempt: Option<string>, stage: Removal, final: Removal)
    | CleanupOp(leftAttempt: string, listing: seq<string>, done: nat, last: Removal)

  /** The disk, the assets ever begun, and the trees staged completely with the attempt that staged them. */
  datatype World = World(disk: Disk, begun: set<string>, whole: map<string, (string, Files)>)

  predicate Partial(r: Removal) {
    0 < r.count <= |r.order|
  }

  ghost predicate RemovalOf(r: Removal, trees: map<string, Files>, name: string) {
    name in trees ==> Lists(r.order, trees[name])
  }

  /** What the callers keep to: fresh ids, publishing only what was staged, real identifiers. */
  ghost predicate Enabled(w: World, op: Op) {
    match op
    case StageOp(assetId, attemptId, contents, cut, _, _) =>
      && IsCanonicalUuid(assetId) && IsCanonicalUuid(attemptId) && assetId !in w.begun
      && (cut == Never || cut.after <= StageChanges(contents))
    case PublishOp(staged, _) =>
      staged.assetId in w.whole && staged.attemptId == w.whole[staged.assetId].0
    case RemoveOp(asset, attempt, stage, final) =>
      && IsCanonicalUuid(asset) && (attempt.Some? ==> IsCanonicalUuid(attempt.value))
      && RemovalOf(final, w.disk.assets, asset)
      && (attempt.Some? ==> RemovalOf(stage, w.disk.staging, StageName(asset, attempt.value)))
    case CleanupOp(attempt, listing, done, last) =>
      && IsCanonicalUuid(attempt) && Distinct(listing) && (forall name :: name in w.disk.staging <==> name in listing)
      && (done < |Matching(listing, attempt)| ==> RemovalOf(last, w.disk.staging, Matching(listing, attempt)[done]))
  }

  function StageResult(d: Disk, name: string, contents: seq<(string, bytes)>, cut: Cut, part: nat, cleanup: Removal): map<string, Files>
    requires cut == Never || cut.after <= StageChanges(contents)
  {
    if cut == Never then d.staging[name := WrittenFully(contents, |contents|)]
    else
      var left := StagedTree(contents, cut.after, part);
      if left.None? then d.staging
      else if cut.Dies? then d.staging[name := left.value]
      else SetTree(d.staging, name, RemoveTree(left.value, cleanup.order, cleanup.count))
  }

  /** `stage_file` in a world: the disk effect of `StageFiles`, and the completed tree if it returned. */
  function AfterStage(w: World, assetId: string, attemptId: string, contents: seq<(string, bytes)>, cut: Cut, part: nat, cleanup: Removal): World
    requires cut == Never || cut.after <= StageChanges(contents)
  {
    var name := StageName(assetId, attemptId);
    var begun := w.begun + {assetId};
    if name in w.disk.staging || assetId in w.disk.assets then w.(begun := begun)
    else
      World(Disk(StageResult(w.disk, name, contents, cut, part, cleanup), w.disk.assets), begun,
            if cut == Never then w.whole[assetId := (attemptId, WrittenFully(contents, |contents|))] else w.whole)
  }

  /** `PublishStaged` in a world. */
  function AfterPublish(h: Digest.Hash, d: Disk, staged: StagedAsset, fate: RenameFate): Disk {
    if fate == RenameDone || fate == DiesAfter then Published(h, d, staged).0 else d
  }

  ghost function After(h: Digest.Hash, w: World, op: Op): World
    requires Enabled(w, op)
  {
    match op
    case StageOp(assetId, attemptId, contents, cut, part, cleanup) => AfterStage(w, assetId, attemptId, contents, cut, part, cleanup)
    case PublishOp(staged, fate) => w.(disk := AfterPublish(h, w.disk, staged, fate))
    case RemoveOp(asset, attempt, stage, final) => w.(disk := Removed(w.disk, asset, attempt, stage, final))
    case CleanupOp(attempt, listing, done, last) =>
      w.(disk := Disk(CleanedUp(w.disk.staging, Matching(listing, attempt), done, last), w.disk.assets))
  }

  // ------------------------------------------------------------------- events of a run

  /** The operation moves the asset's staged directory to its published place. */
  predicate Moves(w: World, op: Op, id: string) {
    && op.PublishOp? && op.staged.assetId == id && Renames(w.disk, op.staged)
    && (op.fate == RenameDone || op.fate == DiesAfter)
  }

  /** The operation removes the asset's published directory to the end. */
  predicate Clears(op: Op, id: string) {
    op.RemoveOp? && op.asset == id && Completes(op.final)
  }

  /** The operation begins to remove the asset's published directory, which is there, and stops. */
  predicate CutsPublished(w: World, op: Op, id: string) {
    op.RemoveOp? && op.asset == id && id in w.disk.assets && Partial(op.final)
  }

  /** The operation begins to remove the asset's completely staged directory, which is there, and stops. */
  predicate CutsStaged(w: World, op: Op, id: string) {
    id in w.whole &&
    var name := StageName(id, w.whole[id].0);
    name in w.disk.staging &&
    match op
    case RemoveOp(asset, attempt, stage, _) => asset == id && attempt == Some(w.whole[id].0) && Partial(stage)
    case CleanupOp(attempt, listing, done, last) =>
      var names := Matching(listing, attempt);
      done < |names| && names[done] == name && Partial(last)
    case _ => false
  }

  predicate Cuts(w: World, op: Op, id: string) {
    CutsPublished(w, op, id) || CutsStaged(w, op, id)
  }

  // ------------------------------------------------------------------------- invariant

  /** The asset's directory: published, or completely staged and not yet published. */
  function Tree(w: World, id: string): Option<Files> {
    if id in w.disk.assets then Some(w.disk.assets[id])
    else if id in w.whole && StageName(id, w.whole[id].0) in w.disk.staging then Some(w.disk.staging[StageName(id, w.whole[id].0)])
    else None
  }

  ghost predicate Shrunk(files: Files, whole: Files) {
    exists p :: p in whole && p !in files
  }

  /** Every asset's directory is its whole staged tree, or less of it exactly when a removal of it was cut. */
  ghost predicate Tracks(w: World, id: string, cut: bool) {
    && (id in w.disk.assets || cut ==> id in w.whole)
    && (id in w.whole ==> id in w.begun && IsCanonicalUuid(id))
    && (id in w.disk.assets ==> StageName(id, w.whole[id].0) !in w.disk.staging)
    && (Tree(w, id).Some? ==> if cut then Shrunk(Tree(w, id).value, w.whole[id].1) else Tree(w, id).value == w.whole[id].1)
  }

  lemma StageKeeps(w: World, assetId: string, attemptId: string, contents: seq<(string, bytes)>, cut: Cut, part: nat, cleanup: Removal,
                   id: string, was: bool)
    requires Tracks(w, id, was) && IsCanonicalUuid(assetId) && assetId !in w.begun && (cut == Never || cut.after <= StageChanges(contents))
    ensures Tracks(AfterStage(w, assetId, attemptId, contents, cut, part, cleanup), id, was)
  {
    hide WrittenFully, StagedTree, RemoveTree, StageName, IsCanonicalUuid, Shrunk;
    if id != assetId && id in w.whole && StageName(id, w.whole[id].0) == StageName(assetId, attemptId) {
      StageNamesApart(id, w.whole[id].0, assetId, attemptId);
    }
  }

  lemma PublishKeeps(h: Digest.Hash, w: World, staged: StagedAsset, fate: RenameFate, id: string, was: bool)
    requires Tracks(w, id, was) && IsCanonicalUuid(staged.assetId)
    requires staged.assetId in w.whole && staged.attemptId == w.whole[staged.assetId].0
    ensures Tracks(w.(disk := AfterPublish(h, w.disk, staged, fate)), id, was)
  {
    hide StageName, IsCanonicalUuid, Validates, SafeComponent, Shrunk;
    if id in w.whole && id != staged.assetId && StageName(id, w.whole[id].0) == StageName(staged.assetId, staged.attemptId) {
      StageNamesApart(id, w.whole[id].0, staged.assetId, staged.attemptId);
    }
  }

  /** A removal that began leaves less than the whole tree, from the whole tree or from less of it. */
  lemma RemovalShrinks(files: Files, whole: Files, was: bool, r: Removal)
    requires Lists(r.order, files) && if was then Shrunk(files, whole) else files == whole
    ensures var left := RemoveTree(files, r.order, r.count);
            left.Some? ==> if was || Partial(r) then Shrunk(left.value, whole) else left.value == whole
  {
    RemoveTreeIsExact(files, r.order, r.count);
    if was {
      var p :| p in whole && p !in files;
    }
  }

  lemma RemoveKeeps(w: World, asset: string, attempt: Option<string>, stage: Removal, final: Removal, id: string, was: bool)
    requires Tracks(w, id, was) && IsCanonicalUuid(asset) && RemovalOf(final, w.disk.assets, asset)
    requires attempt.Some? ==> RemovalOf(stage, w.disk.staging, StageName(asset, attempt.value))
    ensures Tracks(w.(disk := Removed(w.disk, asset, attempt, stage, final)), id,
                   was || Cuts(w, RemoveOp(asset, attempt, stage, final), id))
  {
    hide StageName, IsCanonicalUuid, RemoveTree, Shrunk;
    if id in w.whole && attempt.Some? && StageName(id, w.whole[id].0) == StageName(asset, attempt.value) {
      StageNamesApart(id, w.whole[id].0, asset, attempt.value);
    }
    if Tree(w, id).Some? && asset == id && (id in w.disk.assets || attempt == Some(w.whole[id].0)) {
      RemovalShrinks(Tree(w, id).value, w.whole[id].1, was, if id in w.disk.assets then final else stage);
    }
  }

  lemma CleanupKeeps(w: World, attempt: string, listing: seq<string>, done: nat, last: Removal, id: string, was: bool)
    requires Tracks(w, id, was) && Distinct(listing) && forall name :: name in w.disk.staging <==> name in listing
    requires done < |Matching(listing, attempt)| ==> RemovalOf(last, w.disk.staging, Matching(listing, attempt)[done])
    ensures Tracks(w.(disk := Disk(CleanedUp(w.disk.staging, Matching(listing, attempt), done, last), w.disk.assets)), id,
                   was || Cuts(w, CleanupOp(attempt, listing, done, last), id))
  {
    hide StageName, IsCanonicalUuid, RemoveTree, Shrunk, Matching;
    MatchingIsExact(listing, attempt);
    var names := Matching(listing, attempt);
    if Tree(w, id).Some? && id !in w.disk.assets && done < |names| && names[done] == StageName(id, w.whole[id].0) {
      RemovalShrinks(Tree(w, id).value, w.whole[id].1, was, last);
    }
  }

  lemma OpKeeps(h: Digest.Hash, w: World, op: Op, id: string, was: bool)
    requires Tracks(w, id, was) && Enabled(w, op) && (op.PublishOp? ==> IsCanonicalUuid(op.staged.assetId))
    ensures Tracks(After(h, w, op), id, was || Cuts(w, op, id))
  {
    hide Tracks, AfterStage, AfterPublish, Removed, CleanedUp, Matching, IsCanonicalUuid, StageName;
    match op
    case StageOp(assetId, attemptId, contents, cut, part, cleanup) =>
      StageKeeps(w, assetId, attemptId, contents, cut, part, cleanup, id, was);
    case PublishOp(staged, fate) => PublishKeeps(h, w, staged, fate, id, was);
    case RemoveOp(asset, attempt, stage, final) => RemoveKeeps(w, asset, attempt, stage, final, id, was);
    case CleanupOp(attempt, listing, done, last) => CleanupKeeps(w, attempt, listing, done, last, id, was);
  }

  // ------------------------------------------------------------------------------ runs

  const EMPTY := World(Disk(map[], map[]), {}, map[])

  ghost predicate StepAt(h: Digest.Hash, worlds: seq<World>, ops: seq<Op>, k: nat)
    requires k < |ops| && |worlds| == |ops| + 1
  {
    Enabled(worlds[k], ops[k]) && worlds[k + 1] == After(h, worlds[k], ops[k])
  }

  ghost predicate IsRun(h: Digest.Hash, worlds: seq<World>, ops: seq<Op>) {
    && |worlds| == |ops| + 1 && worlds[0] == EMPTY
    && forall k :: 0 <= k < |ops| ==> StepAt(h, worlds, ops, k)
  }

  ghost predicate CutBefore(worlds: seq<World>, ops: seq<Op>, k: nat, id: string)
    requires k <= |ops| < |worlds|
  {
    exists j :: 0 <= j < k && Cuts(worlds[j], ops[j], id)
  }

  lemma {:induction false} RunTracks(h: Digest.Hash, worlds: seq<World>, ops: seq<Op>, k: nat, id: string)
    requires IsRun(h, worlds, ops) && k < |worlds|
    ensures Tracks(worlds[k], id, CutBefore(worlds, ops, k, id))
  {
    hide After, Enabled, Cuts, Tree, Shrunk, IsCanonicalUuid, StageName;
    if k > 0 {
      RunTracks(h, worlds, ops, k - 1, id);
      assert StepAt(h, worlds, ops, k - 1);
      var op, was := ops[k - 1], CutBefore(worlds, ops, k - 1, id);
      if op.PublishOp? {
        PublishedIsWhole(h, worlds, ops, k - 1);
      }
      hide Tracks, CutBefore;
      OpKeeps(h, worlds[k - 1], op, id, was);
      CutStep(worlds, ops, k - 1, id);
    } else {
      NothingCut(worlds, ops, id);
      EmptyTracks(id);
    }
  }

  lemma EmptyTracks(id: string)
    ensures Tracks(EMPTY, id, false)
  {
  }

  lemma NothingCut(worlds: seq<World>, ops: seq<Op>, id: string)
    requires |ops| < |worlds|
    ensures !CutBefore(worlds, ops, 0, id)
  {
    hide Cuts;
  }

  lemma CutStep(worlds: seq<World>, ops: seq<Op>, k: nat, id: string)
    requires k < |ops| < |worlds|
    ensures CutBefore(worlds, ops, k + 1, id) <==> CutBefore(worlds, ops, k, id) || Cuts(worlds[k], ops[k], id)
  {
    hide Cuts;
  }

  /** Only what was staged is published, and ids are canonical. */
  lemma {:induction false} PublishedIsWhole(h: Digest.Hash, worlds: seq<World>, ops: seq<Op>, k: nat)
    requires IsRun(h, worlds, ops) && k < |ops| && ops[k].PublishOp?
    ensures IsCanonicalUuid(ops[k].staged.assetId)
  {
    hide After, IsCanonicalUuid, StageName;
    assert StepAt(h, worlds, ops, k);
    WholeIsCanonical(h, worlds, ops, k, ops[k].staged.assetId);
  }

  lemma {:induction false} WholeIsCanonical(h: Digest.Hash, worlds: seq<World>, ops: seq<Op>, k: nat, id: string)
    requires IsRun(h, worlds, ops) && k < |worlds| && id in worlds[k].whole
    ensures IsCanonicalUuid(id)
  {
    hide IsCanonicalUuid, StageName, Published, Removed, CleanedUp, StageResult;
    if k > 0 {
      assert StepAt(h, worlds, ops, k - 1);
      if id in worlds[k - 1].whole { WholeIsCanonical(h, worlds, ops, k - 1, id); }
    }
  }

  lemma PresenceStep(h: Digest.Hash, w: World, op: Op, id: string)
    requires Enabled(w, op)
    ensures id in After(h, w, op).disk.assets <==> Moves(w, op, id) || (id in w.disk.assets && !Clears(op, id))
  {
    hide StageName, IsCanonicalUuid, SafeComponent, Validates, StageResult, CleanedUp, Matching, Lists;
  }

  /** Published at `i`, and not removed to the end since. */
  ghost predicate StandsSince(worlds: seq<World>, ops: seq<Op>, i: nat, k: nat, id: string)
    requires k <= |ops| < |worlds|
  {
    i < k && Moves(worlds[i], ops[i], id) && forall j :: i < j < k ==> !Clears(ops[j], id)
  }

  ghost predicate Stands(worlds: seq<World>, ops: seq<Op>, k: nat, id: string)
    requires k <= |ops| < |worlds|
  {
    exists i: nat :: StandsSince(worlds, ops, i, k, id)
  }

  lemma StandsStep(worlds: seq<World>, ops: seq<Op>, k: nat, id: string)
    requires k < |ops| < |worlds|
    ensures Stands(worlds, ops, k + 1, id)
            <==> Moves(worlds[k], ops[k], id) || (Stands(worlds, ops, k, id) && !Clears(ops[k], id))
  {
    hide Moves, Clears;
    var next := k + 1;
    if Moves(worlds[k], ops[k], id) {
      assert StandsSince(worlds, ops, k, next, id);
    } else if Stands(worlds, ops, k, id) && !Clears(ops[k], id) {
      var i: nat :| StandsSince(worlds, ops, i, k, id);
      assert StandsSince(worlds, ops, i, next, id);
    }
    if !Moves(worlds[k], ops[k], id) && Stands(worlds, ops, next, id) {
      var i: nat :| StandsSince(worlds, ops, i, next, id);
      assert StandsSince(worlds, ops, i, k, id) && !Clears(ops[k], id);
    }
  }

  /** `assets/<id>` is there exactly when it was published and no removal of it has run to the end since. */
  lemma {:induction false} PresentExactly(h: Digest.Hash, worlds: seq<World>, ops: seq<Op>, k: nat, id: string)
    requires IsRun(h, worlds, ops) && k < |worlds|
    ensures id in worlds[k].disk.assets <==> Stands(worlds, ops, k, id)
  {
    hide After, Enabled, Moves, Clears;
    if k > 0 {
      PresentExactly(h, worlds, ops, k - 1, id);
      assert StepAt(h, worlds, ops, k - 1);
      PresenceStep(h, worlds[k - 1], ops[k - 1], id);
      hide Stands;
      StandsStep(worlds, ops, k - 1, id);
    }
  }

  ghost predicate AbsentOrWhole(w: World, id: string) {
    id in w.disk.assets ==> id in w.whole && w.disk.assets[id] == w.whole[id].1
  }

  /**
   Crash safety, with its exact exception. At a point of any run, whatever died or failed wherever,
   `assets/<id>` is neither absent nor exactly the tree staged for that id if and only if it was
   published, no removal of it has run to the end since, and some removal of that directory, while
   it was published or before it was, began and stopped.
   */
  lemma AbsentOrComplete(h: Digest.Hash, worlds: seq<World>, ops: seq<Op>, k: nat, id: string)
    requires IsRun(h, worlds, ops) && k < |worlds|
    ensures !AbsentOrWhole(worlds[k], id) <==>
              Stands(worlds, ops, k, id) && CutBefore(worlds, ops, k, id)
  {
    hide StageName, IsCanonicalUuid, IsRun, Stands, CutBefore;
    RunTracks(h, worlds, ops, k, id);
    PresentExactly(h, worlds, ops, k, id);
  }

  // ------------------------------------------------------- the exception is reachable

  function Paths(contents: seq<(string, bytes)>): (r: seq<string>)
    ensures |r| == |contents|
  {
    seq(|contents|, i requires 0 <= i < |contents| => contents[i].0)
  }

  lemma {:induction false} WrittenPaths(contents: seq<(string, bytes)>, n: nat)
    requires n <= |contents|
    ensures forall p :: p in WrittenFully(contents, n) <==> p in Paths(contents)[..n]
  {
    if n > 0 {
      WrittenPaths(contents, n - 1);
      assert Paths(contents)[..n] == Paths(contents)[..n - 1] + [contents[n - 1].0];
    }
  }

  lemma PathsList(contents: seq<(string, bytes)>)
    ensures Lists(Paths(contents), WrittenFully(contents, |contents|))
  {
    WrittenPaths(contents, |contents|);
    assert Paths(contents)[..|contents|] == Paths(contents);
  }

  lemma UuidIsSafe(s: string)
    requires IsCanonicalUuid(s)
    ensures SafeComponent(s)
  {
    forall i | 0 <= i < |s| ensures IsLowerHex(s[i]) || 'A' <= s[i] <= 'F' || s[i] == '-' {
      assert i < 36;
    }
  }

  lemma ThreeSteps(h: Digest.Hash, a: Op, b: Op, c: Op) returns (worlds: seq<World>, ops: seq<Op>)
    requires Enabled(EMPTY, a) && Enabled(After(h, EMPTY, a), b) && Enabled(After(h, After(h, EMPTY, a), b), c)
    ensures IsRun(h, worlds, ops) && ops == [a, b, c] && |worlds| == 4
    ensures worlds[1] == After(h, EMPTY, a) && worlds[2] == After(h, worlds[1], b) && worlds[3] == After(h, worlds[2], c)
  {
    hide Enabled, After;
    var w1 := After(h, EMPTY, a);
    var w2 := After(h, w1, b);
    worlds, ops := [EMPTY, w1, w2, After(h, w2, c)], [a, b, c];
    forall k | 0 <= k < |ops| ensures StepAt(h, worlds, ops, k) {
      assert k == 0 || k == 1 || k == 2;
    }
  }

  /** What staging leaves: the whole tree under the staging name, and nothing published. */
  lemma StagedWorld(h: Digest.Hash, id: string, attempt: string, contents: seq<(string, bytes)>)
    requires IsCanonicalUuid(id) && IsCanonicalUuid(attempt)
    ensures var op := StageOp(id, attempt, contents, Never, 0, Completed());
            var tree, name := WrittenFully(contents, |contents|), StageName(id, attempt);
            Enabled(EMPTY, op)
            && After(h, EMPTY, op) == World(Disk(map[name := tree], map[]), {id}, map[id := (attempt, tree)])
  {
    hide IsCanonicalUuid, StageName, WrittenFully;
  }

  /** Any asset with a file in it can be published and then left half removed. */
  lemma HalfRemovedIsReachable(h: Digest.Hash, staged: StagedAsset, contents: seq<(string, bytes)>)
    returns (worlds: seq<World>, ops: seq<Op>)
    requires IsCanonicalUuid(staged.assetId) && IsCanonicalUuid(staged.attemptId) && contents != []
    requires staged.directory == StageName(staged.assetId, staged.attemptId)
    ensures IsRun(h, worlds, ops) && |ops| == 3 && !AbsentOrWhole(worlds[3], staged.assetId)
    ensures ops[2] == RemoveOp(staged.assetId, None, Completed(), Removal(Paths(contents), 1))
  {
    var id, tree := staged.assetId, WrittenFully(contents, |contents|);
    var stage := StageOp(id, staged.attemptId, contents, Never, 0, Completed());
    var publish, remove := PublishOp(staged, RenameDone), RemoveOp(id, None, Completed(), Removal(Paths(contents), 1));
    StagedWorld(h, id, staged.attemptId, contents);
    PathsList(contents);
    UuidIsSafe(id);
    UuidIsSafe(staged.attemptId);
    hide IsCanonicalUuid, StageName, WrittenFully, SafeComponent, Validates, Lists, RemoveTree;
    var w2 := After(h, After(h, EMPTY, stage), publish);
    assert w2.disk.assets == map[id := tree];
    worlds, ops := ThreeSteps(h, stage, publish, remove);
    assert Cuts(worlds[2], ops[2], id) && CutBefore(worlds, ops, 3, id);
    assert StandsSince(worlds, ops, 1, 3, id);
    AbsentOrComplete(h, worlds, ops, 3, id);
  }

  /** Or left half removed while it was staged, and then published. */
  lemma HalfStagedIsReachable(h: Digest.Hash, staged: StagedAsset, contents: seq<(string, bytes)>)
    returns (worlds: seq<World>, ops: seq<Op>)
    requires IsCanonicalUuid(staged.assetId) && IsCanonicalUuid(staged.attemptId) && contents != []
    requires staged.directory == StageName(staged.assetId, staged.attemptId)
    ensures IsRun(h, worlds, ops) && |ops| == 3 && !AbsentOrWhole(worlds[3], staged.assetId)
    ensures ops[1] == RemoveOp(staged.assetId, Some(staged.attemptId), Removal(Paths(contents), 1), Completed())
    ensures ops[2] == PublishOp(staged, RenameDone)
  {
    var id, name, tree := staged.assetId, staged.directory, WrittenFully(contents, |contents|);
    var stage := StageOp(id, staged.attemptId, contents, Never, 0, Completed());
    var remove := RemoveOp(id, Some(staged.attemptId), Removal(Paths(contents), 1), Completed());
    var publish := PublishOp(staged, RenameDone);
    StagedWorld(h, id, staged.attemptId, contents);
    PathsList(contents);
    UuidIsSafe(id);
    UuidIsSafe(staged.attemptId);
    RemovalEnds(tree, remove.stage);
    hide IsCanonicalUuid, StageName, WrittenFully, SafeComponent, Validates, Lists, RemoveTree;
    var w2 := After(h, After(h, EMPTY, stage), remove);
    assert name in w2.disk.staging && id !in w2.disk.assets;
    worlds, ops := ThreeSteps(h, stage, remove, publish);
    assert Cuts(worlds[1], ops[1], id) && CutBefore(worlds, ops, 3, id);
    assert StandsSince(worlds, ops, 2, 3, id);
    AbsentOrComplete(h, worlds, ops, 3, id);
  }
}
