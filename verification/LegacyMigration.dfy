/** Migration 8's relation step as a transaction, and the audit of what it leaves. */
module LegacyMigration {
  /*
   The discovery rows and relation rows of `LegacySnapshots` are inserted one by one under the new
   tables' CHECK and unique constraints; foreign keys are checked at the end; any objection rolls the
   migration back.
   */

  import opened Common
  import Digest
  import opened Ordering
  import opened GraphAudit
  import opened LegacySnapshots

  const MAX_MEMBERS := 50

  datatype Fault = UnknownAttempt | MemberCount | DiscoveryRepeated | RelationRepeated | ForeignKey

  datatype Tables = Tables(discoveries: seq<NewDiscovery>, relations: seq<NewRelation>)

  type Attempts = map<string, AttemptOwner>

  type Items = map<string, Item>

  predicate KnownAttempt(attempts: Attempts, attempt: Option<string>) {
    attempt.Some? ==> attempt.value in attempts
  }

  // --------------------------------------------------------------------- constraints

  predicate SameDiscovery(a: NewDiscovery, b: NewDiscovery) {
    || a.row.id == b.row.id
    || (a.row.parentItem == b.row.parentItem && a.row.relationType == b.row.relationType && a.row.snapshotHash == b.row.snapshotHash)
  }

  predicate SameRelation(a: NewRelation, b: NewRelation) {
    a.id == b.id || (a.discoveryId == b.discoveryId && a.ordinal == b.ordinal)
  }

  function DiscoveryObjection(stored: seq<NewDiscovery>, d: NewDiscovery): Option<Fault> {
    if !(1 <= d.row.memberCount <= MAX_MEMBERS) then Some(MemberCount)
    else if exists x :: x in stored && SameDiscovery(x, d) then Some(DiscoveryRepeated)
    else None
  }

  function RelationObjection(stored: seq<NewRelation>, r: NewRelation): Option<Fault> {
    if exists x :: x in stored && SameRelation(x, r) then Some(RelationRepeated) else None
  }

  /** `PRAGMA foreign_key_check` on the two new tables. */
  predicate ReferencesHold(t: Tables, items: Items, attempts: Attempts) {
    && (forall d :: d in t.discoveries ==> d.row.parentItem in items && KnownAttempt(attempts, d.row.attempt))
    && (forall r :: r in t.relations ==>
          && (exists d :: d in t.discoveries && d.row.id == r.discoveryId)
          && r.parent in items && r.child in items && KnownAttempt(attempts, r.attempt))
  }

  ghost predicate DiscoveriesFit(ds: seq<NewDiscovery>) {
    forall i :: 0 <= i < |ds| ==> DiscoveryObjection(ds[..i], ds[i]).None?
  }

  ghost predicate RelationsFit(rs: seq<NewRelation>) {
    forall i :: 0 <= i < |rs| ==> RelationObjection(rs[..i], rs[i]).None?
  }

  function Produced(h: Digest.Hash, rows: seq<OldRow>): Tables {
    Tables(Discoveries(h, Ordered(rows), SortedKeys(rows)), Relations(h, Ordered(rows), SortedKeys(rows)))
  }

  /** No step of the migration objects. */
  ghost predicate Commits(h: Digest.Hash, rows: seq<OldRow>, items: Items, attempts: Attempts) {
    && (forall r :: r in rows ==> KnownAttempt(attempts, r.attempt))
    && DiscoveriesFit(Produced(h, rows).discoveries) && RelationsFit(Produced(h, rows).relations)
    && ReferencesHold(Produced(h, rows), items, attempts)
  }

  // -------------------------------------------------------------------------- method

  method InsertDiscoveries(ds: seq<NewDiscovery>) returns (fault: Option<Fault>)
    ensures fault.None? <==> DiscoveriesFit(ds)
  {
    hide DiscoveryObjection;
    var stored: seq<NewDiscovery> := [];
    for k := 0 to |ds|
      invariant stored == ds[..k]
      invariant forall i :: 0 <= i < k ==> DiscoveryObjection(ds[..i], ds[i]).None?
    {
      fault := DiscoveryObjection(stored, ds[k]);
      if fault.Some? { return; }
      stored := stored + [ds[k]];
    }
    fault := None;
  }

  method InsertRelations(rs: seq<NewRelation>) returns (fault: Option<Fault>)
    ensures fault.None? <==> RelationsFit(rs)
  {
    hide RelationObjection;
    var stored: seq<NewRelation> := [];
    for k := 0 to |rs|
      invariant stored == rs[..k]
      invariant forall i :: 0 <= i < k ==> RelationObjection(rs[..i], rs[i]).None?
    {
      fault := RelationObjection(stored, rs[k]);
      if fault.Some? { return; }
      stored := stored + [rs[k]];
    }
    fault := None;
  }

  /** The relation part of `_migrate_to_8`: the new tables, or the first objection and the old table. */
  method MigrateRelations(h: Digest.Hash, rows: seq<OldRow>, items: Items, attempts: Attempts) returns (r: Result<Tables, Fault>)
    ensures r.Ok? <==> Commits(h, rows, items, attempts)
    ensures r.Ok? ==> r.value == Produced(h, rows)
  {
    hide DiscoveriesFit, RelationsFit, ReferencesHold;
    if exists row :: row in rows && !KnownAttempt(attempts, row.attempt) {
      return Err(UnknownAttempt);
    }
    var discoveries, relations := LegacyDiscoveryRows(h, rows);
    var fault := InsertDiscoveries(discoveries);
    if fault.Some? {
      return Err(fault.value);
    }
    fault := InsertRelations(relations);
    if fault.Some? {
      return Err(fault.value);
    }
    if !ReferencesHold(Tables(discoveries, relations), items, attempts) {
      return Err(ForeignKey);
    }
    return Ok(Tables(discoveries, relations));
  }

  // ------------------------------------------------------------- when it commits

  /** What the old table guarantees: its primary key and its unique constraint. */
  ghost predicate OldTable(rows: seq<OldRow>) {
    forall i, j :: 0 <= i < j < |rows| ==> !SameOld(rows[i], rows[j])
  }

  predicate SameOld(a: OldRow, b: OldRow) {
    a.id == b.id || (KeyOf(a) == KeyOf(b) && a.ordinal == b.ordinal)
  }

  /** No parent or relation type holds a NUL, and the digest tells the groups' frames apart. */
  ghost predicate Separable(h: Digest.Hash, rows: seq<OldRow>) {
    && (forall key :: key in SortedKeys(rows) ==> NoNul(key.0) && NoNul(key.1))
    && Digest.CollisionFree(h, Frames(h, rows))
  }

  ghost function Frames(h: Digest.Hash, rows: seq<OldRow>): set<bytes> {
    set key | key in SortedKeys(rows) :: IdentityFrame(h, key, Group(Ordered(rows), key))
  }

  /** The discovery id of a group of the table. */
  function IdOf(h: Digest.Hash, rows: seq<OldRow>, key: GroupKey): string {
    DiscoveryId(h, key, Group(Ordered(rows), key))
  }

  lemma IdsTellKeys(h: Digest.Hash, rows: seq<OldRow>, a: GroupKey, b: GroupKey)
    requires Separable(h, rows) && a in SortedKeys(rows) && b in SortedKeys(rows)
    requires IdOf(h, rows, a) == IdOf(h, rows, b)
    ensures a == b
  {
    hide NoNul, IdentityFrame, Group, SortedKeys, DiscoveryId;
    var x, y := Group(Ordered(rows), a), Group(Ordered(rows), b);
    assert IdentityFrame(h, a, x) in Frames(h, rows) && IdentityFrame(h, b, y) in Frames(h, rows);
    DiscoveryIdsApart(h, a, x, b, y);
  }

  ghost predicate GroupsBounded(rows: seq<OldRow>) {
    forall key :: key in SortedKeys(rows) ==> |Group(Ordered(rows), key)| <= MAX_MEMBERS
  }

  lemma DiscoveriesFitExactly(h: Digest.Hash, rows: seq<OldRow>)
    requires Separable(h, rows)
    ensures DiscoveriesFit(Produced(h, rows).discoveries) <==> GroupsBounded(rows)
  {
    hide Discoveries, Relations, Group, SortedKeys, DiscoveryOf, Separable;
    var keys, ds := SortedKeys(rows), Produced(h, rows).discoveries;
    SortedKeysCover(rows);
    AllDiscoveries(h, Ordered(rows), keys);
    forall i | 0 <= i < |ds|
      ensures DiscoveryObjection(ds[..i], ds[i]).None? <==> |Group(Ordered(rows), keys[i])| <= MAX_MEMBERS
    {
      DiscoveriesMatchGroups(h, rows, i);
      forall x | x in ds[..i] ensures !SameDiscovery(x, ds[i]) {
        var j :| 0 <= j < i && ds[j] == x;
        DiscoveriesMatchGroups(h, rows, j);
        DiscoveryIdIs(h, rows, keys[i]);
        DiscoveryIdIs(h, rows, keys[j]);
        if ds[j].row.id == ds[i].row.id { IdsTellKeys(h, rows, keys[j], keys[i]); }
      }
    }
    assert forall key :: key in keys ==> exists i :: 0 <= i < |keys| && keys[i] == key;
  }

  lemma DiscoveryIdIs(h: Digest.Hash, rows: seq<OldRow>, key: GroupKey)
    requires Group(Ordered(rows), key) != []
    ensures DiscoveryOf(h, key, Group(Ordered(rows), key)).row.id == IdOf(h, rows, key)
  {
  }

  /** The i-th new relation and the old row it carries. */
  lemma RelationCarries(h: Digest.Hash, rows: seq<OldRow>, i: nat)
    requires i < |Produced(h, rows).relations|
    ensures |Produced(h, rows).relations| == |Regrouped(Ordered(rows), SortedKeys(rows))|
    ensures var r := Regrouped(Ordered(rows), SortedKeys(rows))[i];
            && Produced(h, rows).relations[i] == RelationOf(IdOf(h, rows, KeyOf(r)), r)
            && r in rows && KeyOf(r) in SortedKeys(rows)
  {
    hide Regrouped, Relations, SortedKeys, Group, DiscoveryId, KeyOf;
    RelationsArePartitioned(h, rows);
    RelationsFollow(h, Ordered(rows), SortedKeys(rows), i);
    var r := Regrouped(Ordered(rows), SortedKeys(rows))[i];
    assert r in multiset(Regrouped(Ordered(rows), SortedKeys(rows)));
    assert r in multiset(rows);
  }

  lemma RelationsFitAlways(h: Digest.Hash, rows: seq<OldRow>)
    requires OldTable(rows) && Separable(h, rows)
    ensures RelationsFit(Produced(h, rows).relations)
  {
    hide Regrouped, Produced, SortedKeys, Group, Separable, KeyOf;
    var regrouped, rs := Regrouped(Ordered(rows), SortedKeys(rows)), Produced(h, rows).relations;
    RegroupedIsTable(h, rows);
    forall i | 0 <= i < |rs| ensures RelationObjection(rs[..i], rs[i]).None? {
      RelationCarries(h, rows, i);
      forall x | x in rs[..i] ensures !SameRelation(x, rs[i]) {
        var j :| 0 <= j < i && rs[j] == x;
        RelationCarries(h, rows, j);
        assert !SameOld(regrouped[j], regrouped[i]);
        if rs[j].discoveryId == rs[i].discoveryId { IdsTellKeys(h, rows, KeyOf(regrouped[j]), KeyOf(regrouped[i])); }
      }
    }
  }

  lemma RegroupedIsTable(h: Digest.Hash, rows: seq<OldRow>)
    requires OldTable(rows)
    ensures OldTable(Regrouped(Ordered(rows), SortedKeys(rows)))
  {
    hide Regrouped, SortedKeys, SameOld;
    RelationsArePartitioned(h, rows);
    TablePermuted(rows, Regrouped(Ordered(rows), SortedKeys(rows)));
  }

  lemma TablePermuted(a: seq<OldRow>, b: seq<OldRow>)
    requires OldTable(a) && multiset(a) == multiset(b)
    ensures OldTable(b)
  {
    var same := (x: OldRow, y: OldRow) => SameOld(x, y);
    assert Apart(a, same);
    ApartPermuted(a, b, same);
    forall i, j | 0 <= i < j < |b| ensures !SameOld(b[i], b[j]) {
      assert !same(b[i], b[j]);
    }
  }

  ghost predicate RowsResolve(rows: seq<OldRow>, items: Items, attempts: Attempts) {
    forall r :: r in rows ==> r.parent in items && r.child in items && KnownAttempt(attempts, r.attempt)
  }

  lemma ReferencesHoldExactly(h: Digest.Hash, rows: seq<OldRow>, items: Items, attempts: Attempts)
    ensures ReferencesHold(Produced(h, rows), items, attempts) <==> RowsResolve(rows, items, attempts)
  {
    hide Regrouped, Produced, SortedKeys, Group, KeyOf, KnownAttempt, DiscoveryId;
    var t := Produced(h, rows);
    if RowsResolve(rows, items, attempts) {
      forall d | d in t.discoveries ensures d.row.parentItem in items && KnownAttempt(attempts, d.row.attempt) {
        DiscoveryResolves(h, rows, items, attempts, d);
      }
      forall r | r in t.relations
        ensures exists d :: d in t.discoveries && d.row.id == r.discoveryId
        ensures r.parent in items && r.child in items && KnownAttempt(attempts, r.attempt)
      {
        var i :| 0 <= i < |t.relations| && t.relations[i] == r;
        RelationCarries(h, rows, i);
        var d := OwnDiscovery(h, rows, KeyOf(Regrouped(Ordered(rows), SortedKeys(rows))[i]));
      }
    }
    if ReferencesHold(t, items, attempts) {
      forall r | r in rows ensures r.parent in items && r.child in items && KnownAttempt(attempts, r.attempt) {
        var i := CarriedAt(h, rows, r);
        RelationCarries(h, rows, i);
        assert t.relations[i] in t.relations;
      }
    }
  }

  lemma CarriedAt(h: Digest.Hash, rows: seq<OldRow>, r: OldRow) returns (i: nat)
    requires r in rows
    ensures i < |Produced(h, rows).relations|
    ensures |Produced(h, rows).relations| == |Regrouped(Ordered(rows), SortedKeys(rows))|
    ensures Regrouped(Ordered(rows), SortedKeys(rows))[i] == r
  {
    hide Regrouped, Relations, SortedKeys;
    RelationsArePartitioned(h, rows);
    assert r in multiset(rows) && r in multiset(Regrouped(Ordered(rows), SortedKeys(rows)));
    i := IndexOf(Regrouped(Ordered(rows), SortedKeys(rows)), r);
  }

  /** The discovery of a group is among the produced ones. */
  lemma OwnDiscovery(h: Digest.Hash, rows: seq<OldRow>, key: GroupKey) returns (d: NewDiscovery)
    requires key in SortedKeys(rows)
    ensures d in Produced(h, rows).discoveries && d.row.id == IdOf(h, rows, key)
  {
    hide Discoveries, Relations, SortedKeys, Group, DiscoveryOf;
    var i :| 0 <= i < |SortedKeys(rows)| && SortedKeys(rows)[i] == key;
    DiscoveriesMatchGroups(h, rows, i);
    DiscoveryIdIs(h, rows, key);
    d := Produced(h, rows).discoveries[i];
  }

  lemma DiscoveryResolves(h: Digest.Hash, rows: seq<OldRow>, items: Items, attempts: Attempts, d: NewDiscovery)
    requires RowsResolve(rows, items, attempts) && d in Produced(h, rows).discoveries
    ensures d.row.parentItem in items && KnownAttempt(attempts, d.row.attempt)
  {
    hide Discoveries, Relations, SortedKeys, Group, DiscoveryId, SnapshotHash, MembersText, Earliest, FirstAttempt;
    var keys := SortedKeys(rows);
    SortedKeysCover(rows);
    AllDiscoveries(h, Ordered(rows), keys);
    var i :| 0 <= i < |keys| && Produced(h, rows).discoveries[i] == d;
    DiscoveriesMatchGroups(h, rows, i);
    var group := Group(Ordered(rows), keys[i]);
    FirstAttemptIsOne(group);
    GroupMember(Ordered(rows), keys[i], 0);
    GroupMembersStored(rows, keys[i], group[0]);
    if FirstAttempt(group).Some? {
      var j :| 0 <= j < |group| && group[j].attempt == FirstAttempt(group);
      GroupMembersStored(rows, keys[i], group[j]);
    }
  }

  lemma GroupMembersStored(rows: seq<OldRow>, key: GroupKey, r: OldRow)
    requires r in Group(Ordered(rows), key)
    ensures r in rows && KeyOf(r) == key
  {
    hide Group, KeyOf;
    GroupCount(Ordered(rows), key, r);
    assert r in multiset(Group(Ordered(rows), key));
    assert r in multiset(Ordered(rows));
    assert r in multiset(rows);
  }

  /**
   The migration commits exactly when every row's parent, child and attempt exist and no parent and
   relation type have more than 50 rows.
   */
  lemma CommitsExactly(h: Digest.Hash, rows: seq<OldRow>, items: Items, attempts: Attempts)
    requires OldTable(rows) && Separable(h, rows)
    ensures Commits(h, rows, items, attempts) <==> RowsResolve(rows, items, attempts) && GroupsBounded(rows)
  {
    hide OldTable, Separable, Produced, DiscoveriesFit, RelationsFit, ReferencesHold, GroupsBounded, KnownAttempt;
    DiscoveriesFitExactly(h, rows);
    RelationsFitAlways(h, rows);
    ReferencesHoldExactly(h, rows, items, attempts);
  }

  // ------------------------------------------------------- the audit of the new tables

  function JoinRow(items: Items, r: NewRelation): RelationRow
    requires r.parent in items && r.child in items
  {
    RelationRow(r.id, r.discoveryId, r.parent, r.child, r.relationType, r.ordinal, r.kind, r.attempt, items[r.child], items[r.parent])
  }

  predicate Joinable(items: Items, rs: seq<NewRelation>) {
    forall i :: 0 <= i < |rs| ==> rs[i].parent in items && rs[i].child in items
  }

  function JoinAll(items: Items, rs: seq<NewRelation>): (r: seq<RelationRow>)
    requires Joinable(items, rs)
    ensures |r| == |rs|
  {
    seq(|rs|, i requires 0 <= i < |rs| => JoinRow(items, rs[i]))
  }

  /** `ORDER BY discovery_id, ordinal, id`. */
  predicate QueriedBefore(a: RelationRow, b: RelationRow) {
    if a.discoveryId != b.discoveryId then Less(a.discoveryId, b.discoveryId)
    else if a.ordinal != b.ordinal then a.ordinal < b.ordinal
    else Less(a.id, b.id)
  }

  function QueryOrder(): (RelationRow, RelationRow) -> bool {
    (a: RelationRow, b: RelationRow) => !QueriedBefore(b, a)
  }

  function Queried(items: Items, rs: seq<NewRelation>): seq<RelationRow>
    requires Joinable(items, rs)
  {
    Sorted(JoinAll(items, rs), QueryOrder())
  }

  function DiscoveryRows(ds: seq<NewDiscovery>): (r: seq<DiscoveryRow>)
    ensures |r| == |ds| && forall i :: 0 <= i < |ds| ==> r[i] == ds[i].row
  {
    seq(|ds|, i requires 0 <= i < |ds| => ds[i].row)
  }

  lemma QueriedTotal(a: RelationRow, b: RelationRow)
    ensures !(QueriedBefore(a, b) && QueriedBefore(b, a))
    ensures !QueriedBefore(a, b) && !QueriedBefore(b, a) ==>
              a.discoveryId == b.discoveryId && a.ordinal == b.ordinal && a.id == b.id
  {
    hide Less;
    LessTotal(a.discoveryId, b.discoveryId);
    LessTotal(a.id, b.id);
  }

  lemma QueriedTransitive(a: RelationRow, b: RelationRow, c: RelationRow)
    requires !QueriedBefore(b, a) && !QueriedBefore(c, b)
    ensures !QueriedBefore(c, a)
  {
    hide Less;
    LessTotal(a.discoveryId, b.discoveryId);
    LessTotal(b.discoveryId, c.discoveryId);
    AtMostTransitive(a.discoveryId, b.discoveryId, c.discoveryId);
    if a.discoveryId == c.discoveryId {
      LessTotal(a.discoveryId, b.discoveryId);
      if a.ordinal == b.ordinal == c.ordinal { AtMostTransitive(a.id, b.id, c.id); }
    }
  }

  lemma QueryOrderIsOrder()
    ensures IsOrder(QueryOrder())
  {
    hide QueriedBefore;
    forall a, b ensures QueryOrder()(a, b) || QueryOrder()(b, a) {
      QueriedTotal(a, b);
    }
    forall a, b, c | QueryOrder()(a, b) && QueryOrder()(b, c) ensures QueryOrder()(a, c) {
      QueriedTransitive(a, b, c);
    }
  }

  lemma {:induction false} GroupStaysSorted(rows: seq<OldRow>, key: GroupKey)
    requires SortedBy(rows, RowOrder())
    ensures SortedBy(Group(rows, key), RowOrder())
    ensures forall r :: r in Group(rows, key) ==> r in rows
  {
    hide Precedes, KeyOf;
    if rows != [] {
      var front := rows[..|rows| - 1];
      assert forall i :: 0 <= i < |front| ==> front[i] == rows[i];
      GroupStaysSorted(front, key);
      forall r | r in Group(front, key) ensures RowOrder()(r, Last(rows)) {
        assert r in front;
      }
    }
  }

  lemma {:induction false} OwnStaySorted(relations: seq<RelationRow>, id: string)
    requires SortedBy(relations, QueryOrder())
    ensures SortedBy(RelationsOf(relations, id), QueryOrder())
    ensures forall r :: r in RelationsOf(relations, id) ==> r in relations && r.discoveryId == id
  {
    hide QueryOrder;
    if relations != [] {
      var rest := relations[1..];
      assert forall i :: 0 <= i < |rest| ==> rest[i] == relations[i + 1];
      OwnStaySorted(rest, id);
      forall r | r in RelationsOf(rest, id) ensures QueryOrder()(relations[0], r) {
        assert r in rest;
      }
    }
  }

  lemma {:induction false} OwnCount(relations: seq<RelationRow>, id: string, r: RelationRow)
    ensures multiset(RelationsOf(relations, id))[r] == if r.discoveryId == id then multiset(relations)[r] else 0
  {
    if relations != [] {
      OwnCount(relations[1..], id, r);
      assert relations == [relations[0]] + relations[1..];
    }
  }

  lemma OwnPermuted(a: seq<RelationRow>, b: seq<RelationRow>, id: string)
    requires multiset(a) == multiset(b)
    ensures multiset(RelationsOf(a, id)) == multiset(RelationsOf(b, id))
  {
    hide RelationsOf;
    forall r ensures multiset(RelationsOf(a, id))[r] == multiset(RelationsOf(b, id))[r] {
      OwnCount(a, id, r);
      OwnCount(b, id, r);
    }
  }

  lemma {:induction false} OwnConcat(a: seq<RelationRow>, b: seq<RelationRow>, id: string)
    ensures RelationsOf(a + b, id) == RelationsOf(a, id) + RelationsOf(b, id)
  {
    if a == [] {
      assert a + b == b;
    } else {
      assert (a + b)[0] == a[0] && (a + b)[1..] == a[1..] + b;
      OwnConcat(a[1..], b, id);
    }
  }

  /** Rows that all carry one discovery id are all of that discovery, and none of another. */
  lemma {:induction false} OwnAllOrNone(relations: seq<RelationRow>, mine: string, id: string)
    requires forall i :: 0 <= i < |relations| ==> relations[i].discoveryId == mine
    ensures RelationsOf(relations, id) == if id == mine then relations else []
  {
    if relations != [] {
      OwnAllOrNone(relations[1..], mine, id);
      assert relations == [relations[0]] + relations[1..];
    }
  }

  lemma JoinConcat(items: Items, a: seq<NewRelation>, b: seq<NewRelation>)
    requires Joinable(items, a + b)
    ensures Joinable(items, a) && Joinable(items, b) && JoinAll(items, a + b) == JoinAll(items, a) + JoinAll(items, b)
  {
    assert forall i :: 0 <= i < |a| ==> (a + b)[i] == a[i];
    assert forall i :: 0 <= i < |b| ==> (a + b)[|a| + i] == b[i];
  }

  /** Among the joined rows of several groups, those of one discovery are its own group's, in order. */
  lemma {:induction false} OwnRows(h: Digest.Hash, rows: seq<OldRow>, items: Items, keys: seq<GroupKey>, key: GroupKey)
    requires Distinct(keys) && Joinable(items, Relations(h, Ordered(rows), keys))
    requires forall k :: k in keys && k != key ==> IdOf(h, rows, k) != IdOf(h, rows, key)
    ensures key in keys ==> Joinable(items, RelationsOfGroup(h, key, Group(Ordered(rows), key)))
    ensures RelationsOf(JoinAll(items, Relations(h, Ordered(rows), keys)), IdOf(h, rows, key))
            == if key in keys then JoinAll(items, RelationsOfGroup(h, key, Group(Ordered(rows), key))) else []
  {
    hide Group, DiscoveryId, RelationsOf, JoinAll, Joinable, RelationsOfGroup, Ordered, IdOf;
    if keys != [] {
      var ordered, front, last := Ordered(rows), keys[..|keys| - 1], Last(keys);
      assert keys == front + [last];
      var own := RelationsOfGroup(h, last, Group(ordered, last));
      JoinConcat(items, Relations(h, ordered, front), own);
      OwnRows(h, rows, items, front, key);
      OwnConcat(JoinAll(items, Relations(h, ordered, front)), JoinAll(items, own), IdOf(h, rows, key));
      GroupOwns(h, rows, items, last, IdOf(h, rows, key));
    } else {
      NothingOwned(h, rows, items, IdOf(h, rows, key));
    }
  }

  lemma NothingOwned(h: Digest.Hash, rows: seq<OldRow>, items: Items, id: string)
    ensures Joinable(items, Relations(h, Ordered(rows), []))
    ensures RelationsOf(JoinAll(items, Relations(h, Ordered(rows), [])), id) == []
  {
  }

  lemma GroupOwns(h: Digest.Hash, rows: seq<OldRow>, items: Items, key: GroupKey, id: string)
    requires Joinable(items, RelationsOfGroup(h, key, Group(Ordered(rows), key)))
    ensures var own := JoinAll(items, RelationsOfGroup(h, key, Group(Ordered(rows), key)));
            RelationsOf(own, id) == if id == IdOf(h, rows, key) then own else []
  {
    hide Group, DiscoveryId, RelationsOf, Ordered;
    OwnAllOrNone(JoinAll(items, RelationsOfGroup(h, key, Group(Ordered(rows), key))), IdOf(h, rows, key), id);
  }

  /** What the query finds for a migrated discovery: its group's rows, in ordinal order. */
  lemma QueriedIsJoined(h: Digest.Hash, rows: seq<OldRow>, items: Items, key: GroupKey)
    requires OldTable(rows) && Separable(h, rows) && key in SortedKeys(rows)
    requires Joinable(items, Produced(h, rows).relations)
    ensures Joined(h, key, Group(Ordered(rows), key), RelationsOf(Queried(items, Produced(h, rows).relations), IdOf(h, rows, key)))
  {
    hide Relations, Discoveries, Group, SortedKeys, Separable, OldTable, DiscoveryId, QueriedBefore, QueryOrder, RelationsOf;
    var rs, id, group := Produced(h, rows).relations, IdOf(h, rows, key), Group(Ordered(rows), key);
    SortedKeysCover(rows);
    forall k | k in SortedKeys(rows) && k != key ensures IdOf(h, rows, k) != id {
      if IdOf(h, rows, k) == id { IdsTellKeys(h, rows, k, key); }
    }
    OwnRows(h, rows, items, SortedKeys(rows), key);
    var joined := JoinAll(items, rs);
    var expected := JoinAll(items, RelationsOfGroup(h, key, group));
    OwnPermuted(joined, Queried(items, rs), id);
    QueryOrderIsOrder();
    SortedIsSorted(joined, QueryOrder());
    OwnStaySorted(Queried(items, rs), id);
    GroupJoinsSorted(h, rows, items, key);
    SortedUnique(expected, RelationsOf(Queried(items, rs), id), QueryOrder());
    GroupJoined(h, rows, items, key);
  }

  /** The joined rows of one group are in query order, without ties. */
  lemma GroupJoinsSorted(h: Digest.Hash, rows: seq<OldRow>, items: Items, key: GroupKey)
    requires OldTable(rows) && Joinable(items, RelationsOfGroup(h, key, Group(Ordered(rows), key)))
    ensures SortedBy(JoinAll(items, RelationsOfGroup(h, key, Group(Ordered(rows), key))), QueryOrder())
    ensures StrictOn(JoinAll(items, RelationsOfGroup(h, key, Group(Ordered(rows), key))), QueryOrder())
  {
    hide Group, DiscoveryId, OldTable, Ordered, QueryOrder;
    var group := Group(Ordered(rows), key);
    var joined := JoinAll(items, RelationsOfGroup(h, key, group));
    GroupOrdinals(rows, key);
    forall i, j | 0 <= i < j < |joined|
      ensures QueryOrder()(joined[i], joined[j]) && !QueryOrder()(joined[j], joined[i])
    {
      assert joined[i].ordinal == group[i].ordinal && joined[j].ordinal == group[j].ordinal;
      QueryByOrdinal(joined[i], joined[j]);
    }
  }

  lemma QueryByOrdinal(a: RelationRow, b: RelationRow)
    requires a.discoveryId == b.discoveryId && a.ordinal < b.ordinal
    ensures QueryOrder()(a, b) && !QueryOrder()(b, a)
  {
    hide Less;
    assert QueriedBefore(a, b) && !QueriedBefore(b, a);
  }

  /** Within a group ordinals increase. */
  lemma GroupOrdinals(rows: seq<OldRow>, key: GroupKey)
    requires OldTable(rows)
    ensures var group := Group(Ordered(rows), key); forall i, j :: 0 <= i < j < |group| ==> group[i].ordinal < group[j].ordinal
  {
    hide Group, KeyBelow, Less;
    RowOrderIsOrder();
    SortedIsSorted(rows, RowOrder());
    GroupStaysSorted(Ordered(rows), key);
    TablePermuted(rows, Ordered(rows));
    GroupIsTable(Ordered(rows), key);
    var group := Group(Ordered(rows), key);
    forall i, j | 0 <= i < j < |group| ensures group[i].ordinal < group[j].ordinal {
      GroupMember(Ordered(rows), key, i);
      GroupMember(Ordered(rows), key, j);
      assert RowOrder()(group[i], group[j]) && !SameOld(group[i], group[j]);
    }
  }

  lemma {:induction false} GroupIsTable(rows: seq<OldRow>, key: GroupKey)
    requires OldTable(rows)
    ensures OldTable(Group(rows, key)) && forall r :: r in Group(rows, key) ==> r in rows
  {
    hide SameOld, KeyOf;
    if rows != [] {
      var front := rows[..|rows| - 1];
      assert forall i :: 0 <= i < |front| ==> front[i] == rows[i];
      GroupIsTable(front, key);
      forall r | r in Group(front, key) ensures !SameOld(r, Last(rows)) {
        var i :| 0 <= i < |front| && front[i] == r;
        assert !SameOld(rows[i], rows[|rows| - 1]);
      }
    }
  }

  lemma GroupJoined(h: Digest.Hash, rows: seq<OldRow>, items: Items, key: GroupKey)
    requires Joinable(items, RelationsOfGroup(h, key, Group(Ordered(rows), key)))
    ensures Joined(h, key, Group(Ordered(rows), key), JoinAll(items, RelationsOfGroup(h, key, Group(Ordered(rows), key))))
  {
    hide Group, DiscoveryId, Ordered, KeyOf;
    var group := Group(Ordered(rows), key);
    forall i | 0 <= i < |group| ensures group[i].parent == key.0 && group[i].relationType == key.1 {
      GroupMember(Ordered(rows), key, i);
      KeyParts(group[i]);
    }
  }

  lemma KeyParts(r: OldRow)
    ensures KeyOf(r).0 == r.parent && KeyOf(r).1 == r.relationType
  {
  }

  /** Each group is numbered 0 to n-1 by attempts made for its parent. */
  ghost predicate GroupsAuditable(rows: seq<OldRow>, attempts: Attempts) {
    forall key :: key in SortedKeys(rows) ==> Auditable(key, Group(Ordered(rows), key), attempts)
  }

  /** The migrated tables as the backup audit reads them. */
  ghost predicate AuditAccepts(h: Digest.Hash, unsafe: char -> bool, t: Tables, items: Items, attempts: Attempts)
    requires Joinable(items, t.relations)
  {
    AllDiscoveriesOk(h, unsafe, DiscoveryRows(t.discoveries), Queried(items, t.relations), attempts)
  }

  lemma ProducedJoinable(h: Digest.Hash, rows: seq<OldRow>, items: Items, attempts: Attempts)
    requires RowsResolve(rows, items, attempts)
    ensures Joinable(items, Produced(h, rows).relations)
  {
    hide Produced, Regrouped, SortedKeys, KeyOf, IdOf, KnownAttempt;
    forall i | 0 <= i < |Produced(h, rows).relations|
      ensures Produced(h, rows).relations[i].parent in items && Produced(h, rows).relations[i].child in items
    {
      RelationCarries(h, rows, i);
    }
  }

  /**
   Over the whole migrated table: the backup audit accepts what a committed migration leaves exactly
   when every group was numbered 0 to n-1 and every attempt named was made for the group's parent.
   */
  lemma MigratedTableAuditsExactly(h: Digest.Hash, unsafe: char -> bool, rows: seq<OldRow>, items: Items, attempts: Attempts)
    requires OldTable(rows) && Separable(h, rows) && Commits(h, rows, items, attempts)
    ensures RowsResolve(rows, items, attempts) && Joinable(items, Produced(h, rows).relations)
    ensures AuditAccepts(h, unsafe, Produced(h, rows), items, attempts) <==> GroupsAuditable(rows, attempts)
  {
    hide OldTable, Separable, Commits, Discoveries, Relations, Group, SortedKeys, Queried, DiscoveryOk, DiscoveryOf, Auditable, RelationsOf,
      RowsResolve, GroupsBounded, Joinable, Joined, IdOf;
    CommitsExactly(h, rows, items, attempts);
    ProducedJoinable(h, rows, items, attempts);
    var t, keys := Produced(h, rows), SortedKeys(rows);
    SortedKeysCover(rows);
    AllDiscoveries(h, Ordered(rows), keys);
    var ds, queried := DiscoveryRows(t.discoveries), Queried(items, t.relations);
    forall i | 0 <= i < |ds|
      ensures DiscoveryOk(h, unsafe, ds[i], RelationsOf(queried, ds[i].id), attempts)
              <==> Auditable(keys[i], Group(Ordered(rows), keys[i]), attempts)
    {
      DiscoveriesMatchGroups(h, rows, i);
      DiscoveryIdIs(h, rows, keys[i]);
      QueriedIsJoined(h, rows, items, keys[i]);
      MigratedDiscoveryAuditsExactly(h, unsafe, keys[i], Group(Ordered(rows), keys[i]), RelationsOf(queried, ds[i].id), attempts);
    }
    assert forall key :: key in keys ==> exists i :: 0 <= i < |keys| && keys[i] == key;
  }

  /** A group numbered 0 to n-1 with n at most 50 and its own attempts migrates, and audits. */
  lemma MigrationAuditsExactly(h: Digest.Hash, unsafe: char -> bool, rows: seq<OldRow>, items: Items, attempts: Attempts)
    requires OldTable(rows) && Separable(h, rows) && RowsResolve(rows, items, attempts)
    ensures Joinable(items, Produced(h, rows).relations)
    ensures Commits(h, rows, items, attempts) && AuditAccepts(h, unsafe, Produced(h, rows), items, attempts)
            <==> GroupsBounded(rows) && GroupsAuditable(rows, attempts)
  {
    hide OldTable, Separable, Commits, Produced, AuditAccepts, RowsResolve, GroupsBounded, Joinable, GroupsAuditable;
    CommitsExactly(h, rows, items, attempts);
    ProducedJoinable(h, rows, items, attempts);
    if Commits(h, rows, items, attempts) {
      MigratedTableAuditsExactly(h, unsafe, rows, items, attempts);
    }
  }

  // -------------------------------------------------------------------- failing tables

  lemma {:induction false} AllOneGroup(rows: seq<OldRow>, key: GroupKey)
    requires forall i :: 0 <= i < |rows| ==> KeyOf(rows[i]) == key
    ensures Group(rows, key) == rows && Keys(rows) == if rows == [] then [] else [key]
  {
    hide KeyOf;
    if rows != [] {
      AllOneGroup(rows[..|rows| - 1], key);
      assert rows == rows[..|rows| - 1] + [Last(rows)];
    }
  }

  lemma OneGroup(rows: seq<OldRow>, key: GroupKey)
    requires rows != [] && forall i :: 0 <= i < |rows| ==> KeyOf(rows[i]) == key
    ensures SortedKeys(rows) == [key] && Group(Ordered(rows), key) == Ordered(rows) && |Ordered(rows)| == |rows|
  {
    hide KeyOf, Group, Keys;
    SameSize(Ordered(rows), rows);
    forall i | 0 <= i < |Ordered(rows)| ensures KeyOf(Ordered(rows)[i]) == key {
      assert Ordered(rows)[i] in multiset(Ordered(rows));
      assert Ordered(rows)[i] in multiset(rows);
    }
    AllOneGroup(Ordered(rows), key);
    SortedOne(key, KeyOrder());
  }

  lemma SortedOne<T>(x: T, leq: (T, T) -> bool)
    ensures Sorted([x], leq) == [x]
  {
    assert [x][..0] == [] && Sorted([], leq) == [];
  }

  lemma OneGroupSeparable(h: Digest.Hash, rows: seq<OldRow>, key: GroupKey)
    requires SortedKeys(rows) == [key] && NoNul(key.0) && NoNul(key.1)
    ensures Separable(h, rows)
  {
    hide IdentityFrame, Group, SortedKeys, NoNul;
    assert forall k :: k in SortedKeys(rows) ==> k == key;
  }

  /** A table of one group: it commits with at most 50 rows, and then audits when they are numbered 0 to n-1. */
  lemma OneGroupOutcome(h: Digest.Hash, unsafe: char -> bool, rows: seq<OldRow>, key: GroupKey, items: Items, attempts: Attempts)
    requires rows != [] && (forall i :: 0 <= i < |rows| ==> KeyOf(rows[i]) == key) && NoNul(key.0) && NoNul(key.1)
    requires OldTable(rows) && RowsResolve(rows, items, attempts)
    ensures Joinable(items, Produced(h, rows).relations)
    ensures Commits(h, rows, items, attempts) <==> |rows| <= MAX_MEMBERS
    ensures Commits(h, rows, items, attempts) ==>
              (AuditAccepts(h, unsafe, Produced(h, rows), items, attempts) <==> Auditable(key, Ordered(rows), attempts))
  {
    hide Produced, AuditAccepts, Commits, Separable, SortedKeys, Group, Joinable, OldTable, RowsResolve, Auditable, KeyOf, NoNul, Ordered;
    OneGroup(rows, key);
    OneGroupSeparable(h, rows, key);
    CommitsExactly(h, rows, items, attempts);
    MigrationAuditsExactly(h, unsafe, rows, items, attempts);
    assert forall k :: k in SortedKeys(rows) <==> k == key;
  }

  const ITEM := Item(None, "", "x", "x_post")
  const LATE := OldRow("r", "p", "c", "t", 1, None, "")

  lemma LateResolves()
    ensures RowsResolve([LATE], map["p" := ITEM, "c" := ITEM], map[]) && OldTable([LATE]) && KeyOf(LATE) == ("p", "t")
    ensures !Auditable(("p", "t"), [LATE], map[]) && Ordered([LATE]) == [LATE]
  {
    SortedOne(LATE, RowOrder());
    assert [LATE][0].ordinal == 1;
  }

  /** One relation with ordinal 1 is migrated, and then refused by the audit. */
  lemma MigratedThenRefused(h: Digest.Hash, unsafe: char -> bool)
    ensures var rows, items := [LATE], map["p" := ITEM, "c" := ITEM];
            && OldTable(rows) && Commits(h, rows, items, map[]) && Joinable(items, Produced(h, rows).relations)
            && !AuditAccepts(h, unsafe, Produced(h, rows), items, map[])
  {
    hide Produced, AuditAccepts, Commits, Joinable, OldTable, RowsResolve, Auditable, KeyOf, Ordered, LATE, ITEM;
    LateResolves();
    OneGroupOutcome(h, unsafe, [LATE], ("p", "t"), map["p" := ITEM, "c" := ITEM], map[]);
  }

  function Numbered(n: nat): (r: seq<OldRow>)
    requires n < 0xD800
    ensures |r| == n
  {
    seq(n, i requires 0 <= i < n => OldRow([i as char], "p", "c", "t", i, None, ""))
  }

  /** 51 relations of one parent, numbered 0 to 50, are not migrated: the whole migration rolls back. */
  lemma FiftyOneRowsAbort(h: Digest.Hash)
    ensures OldTable(Numbered(51)) && RowsResolve(Numbered(51), map["p" := ITEM, "c" := ITEM], map[])
    ensures !Commits(h, Numbered(51), map["p" := ITEM, "c" := ITEM], map[])
  {
    NumberedIsTable(51);
    hide Produced, Commits, Joinable, OldTable, RowsResolve, KeyOf, Ordered, ITEM, Numbered;
    OneGroupOutcome(h, c => false, Numbered(51), ("p", "t"), map["p" := ITEM, "c" := ITEM], map[]);
  }

  lemma NumberedIsTable(n: nat)
    requires n < 0xD800
    ensures OldTable(Numbered(n)) && RowsResolve(Numbered(n), map["p" := ITEM, "c" := ITEM], map[])
    ensures forall i :: 0 <= i < n ==> KeyOf(Numbered(n)[i]) == ("p", "t")
  {
    hide ITEM;
    var rows := Numbered(n);
    forall i, j | 0 <= i < j < n ensures !SameOld(rows[i], rows[j]) {
      assert rows[i].id[0] == i as char && rows[j].id[0] == j as char;
    }
  }
}
