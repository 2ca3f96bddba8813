/**
 What migration 8 writes, said column by column: the discovery of every group, the relation of every
 row, and what the new tables refuse.
 */
module LegacyColumns {
  import opened Common
  import opened Ordering
  import Digest
  import Utf8
  import opened Json
  import opened JsonCanonical
  import opened GraphAudit
  import opened LegacySnapshots
  import opened LegacyMigration

  ghost predicate IsFirstAttempt(group: seq<OldRow>, attempt: Option<string>) {
    if attempt.None? then forall k :: 0 <= k < |group| ==> group[k].attempt.None?
    else exists k :: 0 <= k < |group| && group[k].attempt == attempt && forall j :: 0 <= j < k ==> group[j].attempt.None?
  }

  ghost predicate IsEarliest(group: seq<OldRow>, at: string) {
    && (exists k :: 0 <= k < |group| && group[k].createdAt == at)
    && forall k :: 0 <= k < |group| ==> !Less(group[k].createdAt, at)
  }

  /** Ascending by ordinal, and by id where ordinals are equal. */
  ghost predicate Ascends(group: seq<OldRow>) {
    forall i, j :: 0 <= i < j < |group| ==>
      group[i].ordinal < group[j].ordinal || (group[i].ordinal == group[j].ordinal && !Less(group[j].id, group[i].id))
  }

  /** The rows of a parent and a relation type, each as often as the table has it. */
  ghost predicate GathersRows(group: seq<OldRow>, rows: seq<OldRow>, key: GroupKey) {
    forall r :: multiset(group)[r] == if r.parent == key.0 && r.relationType == key.1 then multiset(rows)[r] else 0
  }

  lemma {:induction false} FirstAttemptIsFirst(group: seq<OldRow>)
    ensures IsFirstAttempt(group, FirstAttempt(group))
  {
    if group != [] && group[0].attempt.None? {
      var rest := group[1..];
      FirstAttemptIsFirst(rest);
      var found := FirstAttempt(rest);
      if found.Some? {
        var k :| 0 <= k < |rest| && rest[k].attempt == found && forall j :: 0 <= j < k ==> rest[j].attempt.None?;
        assert group[k + 1].attempt == found && forall j :: 0 < j < k + 1 ==> group[j] == rest[j - 1];
      } else {
        assert forall k :: 0 < k < |group| ==> group[k] == rest[k - 1];
      }
    } else if group != [] {
      assert group[0].attempt == FirstAttempt(group);
    }
  }

  lemma {:induction false} EarliestIsLeast(group: seq<OldRow>)
    requires group != []
    ensures IsEarliest(group, Earliest(group))
  {
    hide Less;
    LessIrreflexive(group[0].createdAt);
    if |group| > 1 {
      var rest, at := group[1..], Earliest(group[1..]);
      EarliestIsLeast(rest);
      LessTotal(at, group[0].createdAt);
      var k :| 0 <= k < |rest| && rest[k].createdAt == at;
      assert group[k + 1].createdAt == at;
      forall k | 0 < k < |group| ensures !Less(group[k].createdAt, Earliest(group)) {
        assert group[k] == rest[k - 1];
        if Less(group[k].createdAt, group[0].createdAt) && !Less(at, group[0].createdAt) {
          LessTotal(at, group[k].createdAt);
          if at != group[k].createdAt { LessTransitive(at, group[k].createdAt, group[0].createdAt); }
        }
      }
    }
  }

  lemma {:induction false} GroupSorted(rows: seq<OldRow>, key: GroupKey)
    requires SortedBy(rows, RowOrder())
    ensures SortedBy(Group(rows, key), RowOrder())
    ensures forall r :: r in Group(rows, key) ==> r in rows && KeyOf(r) == key
  {
    hide Precedes, KeyOf;
    if rows != [] {
      var front := rows[..|rows| - 1];
      GroupSorted(front, key);
      assert forall r :: r in front ==> RowOrder()(r, Last(rows));
    }
  }

  lemma GroupAscends(rows: seq<OldRow>, key: GroupKey)
    ensures Ascends(Group(Ordered(rows), key)) && GathersRows(Group(Ordered(rows), key), rows, key)
  {
    hide Group, Less, KeyBelow;
    RowOrderIsOrder();
    SortedIsSorted(rows, RowOrder());
    GroupSorted(Ordered(rows), key);
    var group := Group(Ordered(rows), key);
    forall i, j | 0 <= i < j < |group|
      ensures group[i].ordinal < group[j].ordinal || (group[i].ordinal == group[j].ordinal && !Less(group[j].id, group[i].id))
    {
      assert RowOrder()(group[i], group[j]) && group[i] in group && group[j] in group;
    }
    forall r ensures multiset(group)[r] == if r.parent == key.0 && r.relationType == key.1 then multiset(rows)[r] else 0 {
      GroupCount(Ordered(rows), key, r);
    }
  }

  /** One member of a snapshot, as it is written. */
  ghost predicate IsMember(v: Value, r: OldRow) {
    v == Obj([Field("child_source_item_id", Str(r.child)), Field("media_kind", Str("unknown")), Field("ordinal", Num(r.ordinal)),
              Field("selector_key", Null)])
  }

  /** The columns of a discovery, from the rows of its group. */
  ghost predicate Snapshots(h: Digest.Hash, key: GroupKey, group: seq<OldRow>, d: NewDiscovery) {
    && d.row.parentItem == key.0 && d.row.relationType == key.1 && d.row.memberCount == |group|
    && (exists members :: Loads(d.row.membersJson) == Some(Arr(members)) && |members| == |group|
                          && forall i :: 0 <= i < |group| ==> IsMember(members[i], group[i]))
    && IsCanonicalText(d.row.membersJson) && d.row.snapshotHash == h(Utf8.Encode(d.row.membersJson))
    && d.row.id == "legacy:v1:" + h(Utf8.Encode(key.0 + "\0" + key.1 + "\0" + d.row.snapshotHash))
    && IsFirstAttempt(group, d.row.attempt) && IsEarliest(group, d.createdAt)
  }

  lemma DiscoverySnapshots(h: Digest.Hash, key: GroupKey, group: seq<OldRow>)
    requires group != []
    ensures Snapshots(h, key, group, DiscoveryOf(h, key, group))
  {
    hide Loads, IsCanonicalText, MembersText, IsFirstAttempt, IsEarliest, FirstAttempt, Earliest, IsMember;
    FirstAttemptIsFirst(group);
    EarliestIsLeast(group);
    MembersTextReads(group);
    var members := MemberValues(group);
    forall i | 0 <= i < |group| ensures IsMember(members[i], group[i]) { MemberIs(group[i]); }
  }

  lemma MemberIs(r: OldRow)
    ensures IsMember(MemberValue(r), r)
  {
  }

  /**
   The i-th discovery snapshots all rows of one parent and relation type in ascending order of their
   ordinals. It carries the first attempt any of them names and the earliest of their times.
   */
  lemma DiscoveryCarriesItsGroup(h: Digest.Hash, rows: seq<OldRow>, i: nat)
    requires i < |SortedKeys(rows)|
    ensures |Discoveries(h, Ordered(rows), SortedKeys(rows))| == |SortedKeys(rows)|
    ensures var key, d := SortedKeys(rows)[i], Discoveries(h, Ordered(rows), SortedKeys(rows))[i];
            exists group :: GathersRows(group, rows, key) && Ascends(group) && Snapshots(h, key, group, d)
  {
    hide Discoveries, SortedKeys, DiscoveryOf, Snapshots, GathersRows, Ascends;
    DiscoveriesMatchGroups(h, rows, i);
    var key := SortedKeys(rows)[i];
    GroupAscends(rows, key);
    DiscoverySnapshots(h, key, Group(Ordered(rows), key));
  }

  /** Every old row is written as one relation that keeps its columns, in the discovery of its own group. */
  lemma RelationCarriesItsRow(h: Digest.Hash, rows: seq<OldRow>, i: nat)
    requires i < |rows|
    ensures |Relations(h, Ordered(rows), SortedKeys(rows))| == |Regrouped(Ordered(rows), SortedKeys(rows))| == |rows|
    ensures multiset(Regrouped(Ordered(rows), SortedKeys(rows))) == multiset(rows)
    ensures var r, n := Regrouped(Ordered(rows), SortedKeys(rows))[i], Relations(h, Ordered(rows), SortedKeys(rows))[i];
            && n.id == r.id && n.parent == r.parent && n.child == r.child && n.relationType == r.relationType && n.ordinal == r.ordinal
            && n.kind == "unknown" && n.attempt == r.attempt && n.createdAt == r.createdAt
            && n.discoveryId == DiscoveryId(h, (r.parent, r.relationType), Group(Ordered(rows), (r.parent, r.relationType)))
  {
    hide Relations, Regrouped, SortedKeys, DiscoveryId, Group;
    RelationsArePartitioned(h, rows);
  }

  /**
   The new tables refuse a discovery for its size, or when its id or its parent, type and hash together
   are taken, and a relation when its id or its place in its discovery is taken.
   */
  lemma InsertsRefuseExactly(ds: seq<NewDiscovery>, d: NewDiscovery, rs: seq<NewRelation>, r: NewRelation)
    ensures var sized, objection := 1 <= d.row.memberCount <= 50, DiscoveryObjection(ds, d);
            && (objection == Some(MemberCount) <==> !sized)
            && (objection == Some(DiscoveryRepeated) <==> sized && !DiscoveryIsNew(ds, d))
            && (objection == None <==> sized && DiscoveryIsNew(ds, d))
    ensures RelationObjection(rs, r) == if RelationIsNew(rs, r) then None else Some(RelationRepeated)
  {
  }

  ghost predicate DiscoveryIsNew(ds: seq<NewDiscovery>, d: NewDiscovery) {
    && (forall x :: x in ds ==> x.row.id != d.row.id)
    && forall x :: x in ds && x.row.parentItem == d.row.parentItem && x.row.relationType == d.row.relationType ==>
         x.row.snapshotHash != d.row.snapshotHash
  }

  ghost predicate RelationIsNew(rs: seq<NewRelation>, r: NewRelation) {
    forall x :: x in rs ==> x.id != r.id && !(x.discoveryId == r.discoveryId && x.ordinal == r.ordinal)
  }

  ghost predicate Known(attempts: Attempts, attempt: Option<string>) {
    attempt == None || attempt.value in attempts
  }

  /** The foreign keys hold exactly when every parent, child, discovery and named attempt exists. */
  lemma ReferencesHoldExactly(t: Tables, items: Items, attempts: Attempts)
    ensures ReferencesHold(t, items, attempts)
            <==> && (forall d :: d in t.discoveries ==> d.row.parentItem in items)
                 && (forall d :: d in t.discoveries ==> Known(attempts, d.row.attempt))
                 && (forall r :: r in t.relations ==> r.parent in items && r.child in items && Known(attempts, r.attempt))
                 && (forall r :: r in t.relations ==> exists d :: d in t.discoveries && d.row.id == r.discoveryId)
  {
  }
}
