/** Migration 8's data step: legacy relations become immutable discovery snapshots. */
module LegacySnapshots {
  import opened Common
  import Utf8
  import Digest
  import opened Json
  import opened JsonCanonical
  import opened Ordering
  import opened GraphAudit

  /** One row of the old `source_relations`. */
  datatype OldRow = OldRow(
    id: string, parent: string, child: string, relationType: string, ordinal: int, attempt: Option<string>, createdAt: string)

  datatype NewDiscovery = NewDiscovery(row: DiscoveryRow, createdAt: string)

  datatype NewRelation = NewRelation(
    id: string, discoveryId: string, parent: string, child: string, relationType: string, ordinal: int, kind: string,
    attempt: Option<string>, createdAt: string)

  type GroupKey = (string, string)

  function KeyOf(r: OldRow): GroupKey {
    (r.parent, r.relationType)
  }

  // ----------------------------------------------------------------------- ordering

  predicate KeyBelow(a: GroupKey, b: GroupKey) {
    if a.0 != b.0 then Less(a.0, b.0) else Less(a.1, b.1)
  }

  /** `ORDER BY parent_source_item_id, relation_type, ordinal, id`. */
  predicate Precedes(a: OldRow, b: OldRow) {
    if KeyOf(a) != KeyOf(b) then KeyBelow(KeyOf(a), KeyOf(b))
    else if a.ordinal != b.ordinal then a.ordinal < b.ordinal
    else Less(a.id, b.id)
  }

  function RowOrder(): (OldRow, OldRow) -> bool {
    (a: OldRow, b: OldRow) => !Precedes(b, a)
  }

  function KeyOrder(): (GroupKey, GroupKey) -> bool {
    (a: GroupKey, b: GroupKey) => !KeyBelow(b, a)
  }

  function Ordered(rows: seq<OldRow>): (r: seq<OldRow>)
    ensures multiset(r) == multiset(rows)
  {
    Sorted(rows, RowOrder())
  }

  // ------------------------------------------------------------------------ groups

  /** The rows of one parent and relation type, in order. */
  function Group(rows: seq<OldRow>, key: GroupKey): seq<OldRow> {
    if rows == [] then []
    else Group(rows[..|rows| - 1], key) + if KeyOf(Last(rows)) == key then [Last(rows)] else []
  }

  /** The distinct keys, in the order they are first met. */
  function Keys(rows: seq<OldRow>): seq<GroupKey> {
    if rows == [] then []
    else
      var keys := Keys(rows[..|rows| - 1]);
      if KeyOf(Last(rows)) in keys then keys else keys + [KeyOf(Last(rows))]
  }

  // --------------------------------------------------------------------- one group

  const UNKNOWN := "unknown"
  const ID_PREFIX := "legacy:v1:"

  function MemberValue(r: OldRow): Value {
    Obj([Field("child_source_item_id", Str(r.child)), Field("media_kind", Str(UNKNOWN)), Field("ordinal", Num(r.ordinal)),
         Field("selector_key", Null)])
  }

  function MemberValues(group: seq<OldRow>): (r: seq<Value>)
    ensures |r| == |group|
  {
    seq(|group|, i requires 0 <= i < |group| => MemberValue(group[i]))
  }

  function MembersText(group: seq<OldRow>): string {
    Print(Canonical(Arr(MemberValues(group))), Compact, 0)
  }

  function SnapshotHash(h: Digest.Hash, group: seq<OldRow>): string {
    h(Utf8.Encode(MembersText(group)))
  }

  /** The bytes a discovery's id is derived from. */
  function IdentityFrame(h: Digest.Hash, key: GroupKey, group: seq<OldRow>): bytes {
    Utf8.Encode(key.0 + "\0" + key.1 + "\0" + SnapshotHash(h, group))
  }

  function DiscoveryId(h: Digest.Hash, key: GroupKey, group: seq<OldRow>): string {
    ID_PREFIX + h(IdentityFrame(h, key, group))
  }

  function Earliest(group: seq<OldRow>): string
    requires group != []
  {
    if |group| == 1 then group[0].createdAt
    else
      var rest := Earliest(group[1..]);
      if Less(rest, group[0].createdAt) then rest else group[0].createdAt
  }

  function FirstAttempt(group: seq<OldRow>): Option<string> {
    if group == [] then None else if group[0].attempt.Some? then group[0].attempt else FirstAttempt(group[1..])
  }

  function DiscoveryOf(h: Digest.Hash, key: GroupKey, group: seq<OldRow>): NewDiscovery
    requires group != []
  {
    NewDiscovery(
      DiscoveryRow(DiscoveryId(h, key, group), key.0, key.1, SnapshotHash(h, group), MembersText(group), |group|, FirstAttempt(group)),
      Earliest(group))
  }

  function RelationOf(id: string, r: OldRow): NewRelation {
    NewRelation(r.id, id, r.parent, r.child, r.relationType, r.ordinal, UNKNOWN, r.attempt, r.createdAt)
  }

  function RelationsOfGroup(h: Digest.Hash, key: GroupKey, group: seq<OldRow>): (r: seq<NewRelation>)
    ensures |r| == |group|
  {
    seq(|group|, i requires 0 <= i < |group| => RelationOf(DiscoveryId(h, key, group), group[i]))
  }

  /** Everything the step produces, key by key in ascending order. */
  function Discoveries(h: Digest.Hash, rows: seq<OldRow>, keys: seq<GroupKey>): seq<NewDiscovery> {
    if keys == [] then []
    else
      Discoveries(h, rows, keys[..|keys| - 1])
      + if Group(rows, Last(keys)) == [] then [] else [DiscoveryOf(h, Last(keys), Group(rows, Last(keys)))]
  }

  function Relations(h: Digest.Hash, rows: seq<OldRow>, keys: seq<GroupKey>): seq<NewRelation> {
    if keys == [] then []
    else Relations(h, rows, keys[..|keys| - 1]) + RelationsOfGroup(h, Last(keys), Group(rows, Last(keys)))
  }

  function SortedKeys(rows: seq<OldRow>): seq<GroupKey> {
    Sorted(Keys(Ordered(rows)), KeyOrder())
  }

  // ------------------------------------------------------------------------ method

  method GroupRows(rows: seq<OldRow>) returns (grouped: map<GroupKey, seq<OldRow>>, order: seq<GroupKey>)
    ensures order == Keys(rows)
    ensures forall key :: (key in grouped <==> key in order) && (key in grouped ==> grouped[key] == Group(rows, key) != [])
    ensures forall key :: key !in grouped ==> Group(rows, key) == []
  {
    grouped, order := map[], [];
    for k := 0 to |rows|
      invariant order == Keys(rows[..k])
      invariant forall key :: (key in grouped <==> key in order) && (key in grouped ==> grouped[key] == Group(rows[..k], key) != [])
      invariant forall key :: key !in grouped ==> Group(rows[..k], key) == []
    {
      var key := KeyOf(rows[k]);
      assert rows[..k + 1][..k] == rows[..k] && Last(rows[..k + 1]) == rows[k];
      if key in grouped {
        grouped := grouped[key := grouped[key] + [rows[k]]];
      } else {
        grouped, order := grouped[key := [rows[k]]], order + [key];
      }
    }
    assert rows[..|rows|] == rows;
  }

  /** `_legacy_discovery_rows`. */
  method LegacyDiscoveryRows(h: Digest.Hash, rows: seq<OldRow>) returns (discoveries: seq<NewDiscovery>, relations: seq<NewRelation>)
    ensures discoveries == Discoveries(h, Ordered(rows), SortedKeys(rows))
    ensures relations == Relations(h, Ordered(rows), SortedKeys(rows))
  {
    hide DiscoveryOf, RelationsOfGroup, Keys, Group;
    var ordered := Ordered(rows);
    var grouped, order := GroupRows(ordered);
    var keys := Sorted(order, KeyOrder());
    discoveries, relations := [], [];
    for k := 0 to |keys|
      invariant discoveries == Discoveries(h, ordered, keys[..k])
      invariant relations == Relations(h, ordered, keys[..k])
    {
      var key := keys[k];
      assert keys[..k + 1][..k] == keys[..k] && Last(keys[..k + 1]) == key;
      assert key in multiset(keys) && key in order;
      var members := grouped[key];
      discoveries := discoveries + [DiscoveryOf(h, key, members)];
      relations := relations + RelationsOfGroup(h, key, members);
    }
    assert keys[..|keys|] == keys;
  }

  // ----------------------------------------------------------- order independence

  ghost predicate IdsDistinct(rows: seq<OldRow>) {
    forall i, j :: 0 <= i < j < |rows| ==> rows[i].id != rows[j].id
  }

  lemma KeyBelowTotal(a: GroupKey, b: GroupKey)
    ensures a != b ==> KeyBelow(a, b) || KeyBelow(b, a)
    ensures !(KeyBelow(a, b) && KeyBelow(b, a))
  {
    LessTotal(a.0, b.0);
    LessTotal(a.1, b.1);
  }

  lemma KeyBelowTransitive(a: GroupKey, b: GroupKey, c: GroupKey)
    requires KeyBelow(a, b) && KeyBelow(b, c)
    ensures KeyBelow(a, c)
  {
    hide Less;
    if a.0 == b.0 && b.0 == c.0 {
      LessTransitive(a.1, b.1, c.1);
    } else if a.0 != b.0 && b.0 != c.0 {
      LessTransitive(a.0, b.0, c.0);
      LessTotal(a.0, b.0);
    }
  }

  lemma PrecedesTotal(a: OldRow, b: OldRow)
    ensures a.id != b.id ==> Precedes(a, b) || Precedes(b, a)
    ensures !(Precedes(a, b) && Precedes(b, a))
  {
    hide KeyBelow, Less;
    KeyBelowTotal(KeyOf(a), KeyOf(b));
    LessTotal(a.id, b.id);
  }

  lemma PrecedesTransitive(a: OldRow, b: OldRow, c: OldRow)
    requires Precedes(a, b) && Precedes(b, c)
    ensures Precedes(a, c)
  {
    hide KeyBelow, Less;
    if KeyOf(a) == KeyOf(b) && KeyOf(b) == KeyOf(c) {
      if a.ordinal == b.ordinal && b.ordinal == c.ordinal { LessTransitive(a.id, b.id, c.id); }
    } else if KeyOf(a) != KeyOf(b) && KeyOf(b) != KeyOf(c) {
      KeyBelowTransitive(KeyOf(a), KeyOf(b), KeyOf(c));
      KeyBelowTotal(KeyOf(a), KeyOf(b));
    }
  }

  lemma NotAfterTransitive(a: OldRow, b: OldRow, c: OldRow)
    requires !Precedes(b, a) && !Precedes(c, b)
    ensures !Precedes(c, a)
  {
    hide KeyBelow, Less;
    KeyBelowTotal(KeyOf(a), KeyOf(b));
    KeyBelowTotal(KeyOf(b), KeyOf(c));
    LessTotal(a.id, b.id);
    LessTotal(b.id, c.id);
    if Precedes(c, a) {
      PrecedesTotal(a, b);
      PrecedesTotal(b, c);
      if Precedes(a, b) {
        PrecedesTransitive(c, a, b);
        assert false;
      } else if Precedes(b, c) {
        PrecedesTransitive(b, c, a);
        assert false;
      }
    }
  }

  lemma RowOrderIsOrder()
    ensures IsOrder(RowOrder())
  {
    hide Precedes;
    forall a, b ensures RowOrder()(a, b) || RowOrder()(b, a) {
      PrecedesTotal(a, b);
    }
    forall a, b, c | RowOrder()(a, b) && RowOrder()(b, c) ensures RowOrder()(a, c) {
      NotAfterTransitive(a, b, c);
    }
  }

  lemma OrderedStrict(rows: seq<OldRow>)
    requires IdsDistinct(rows)
    ensures StrictOn(Ordered(rows), RowOrder())
  {
    hide Precedes;
    var sorted := Ordered(rows);
    var same := (x: OldRow, y: OldRow) => x.id == y.id;
    ApartPermuted(rows, sorted, same);
    forall i, j | 0 <= i < |sorted| && 0 <= j < |sorted| && i != j
      ensures !(RowOrder()(sorted[i], sorted[j]) && RowOrder()(sorted[j], sorted[i]))
    {
      assert !same(sorted[if i < j then i else j], sorted[if i < j then j else i]);
      PrecedesTotal(sorted[i], sorted[j]);
    }
  }

  /** The snapshots do not depend on the order the rows are stored in. */
  lemma RowOrderDoesNotMatter(h: Digest.Hash, a: seq<OldRow>, b: seq<OldRow>)
    requires multiset(a) == multiset(b) && IdsDistinct(a)
    ensures Ordered(a) == Ordered(b)
    ensures Discoveries(h, Ordered(a), SortedKeys(a)) == Discoveries(h, Ordered(b), SortedKeys(b))
    ensures Relations(h, Ordered(a), SortedKeys(a)) == Relations(h, Ordered(b), SortedKeys(b))
  {
    hide Precedes, Discoveries, Relations, Keys;
    RowOrderIsOrder();
    OrderedStrict(a);
    SortForgetsOrder(a, b, RowOrder());
  }

  // -------------------------------------------------------------------- partition

  /** The rows in the order their relations are written: group after group. */
  function Regrouped(rows: seq<OldRow>, keys: seq<GroupKey>): seq<OldRow> {
    if keys == [] then [] else Regrouped(rows, keys[..|keys| - 1]) + Group(rows, Last(keys))
  }

  lemma {:induction false} GroupCount(rows: seq<OldRow>, key: GroupKey, r: OldRow)
    ensures multiset(Group(rows, key))[r] == if KeyOf(r) == key then multiset(rows)[r] else 0
  {
    if rows != [] {
      GroupCount(rows[..|rows| - 1], key, r);
      assert rows == rows[..|rows| - 1] + [Last(rows)];
    }
  }

  lemma {:induction false} RegroupedCount(rows: seq<OldRow>, keys: seq<GroupKey>, r: OldRow)
    requires Distinct(keys)
    ensures multiset(Regrouped(rows, keys))[r] == if KeyOf(r) in keys then multiset(rows)[r] else 0
  {
    hide Group;
    if keys != [] {
      RegroupedCount(rows, keys[..|keys| - 1], r);
      GroupCount(rows, Last(keys), r);
      assert keys == keys[..|keys| - 1] + [Last(keys)];
    }
  }

  lemma {:induction false} KeysCover(rows: seq<OldRow>)
    ensures Distinct(Keys(rows))
    ensures forall i :: 0 <= i < |rows| ==> KeyOf(rows[i]) in Keys(rows)
    ensures forall key :: key in Keys(rows) ==> Group(rows, key) != []
  {
    hide KeyOf;
    if rows != [] {
      KeysCover(rows[..|rows| - 1]);
    }
  }

  lemma SortedKeysCover(rows: seq<OldRow>)
    ensures Distinct(SortedKeys(rows))
    ensures forall i :: 0 <= i < |Ordered(rows)| ==> KeyOf(Ordered(rows)[i]) in SortedKeys(rows)
    ensures forall key :: key in SortedKeys(rows) ==> Group(Ordered(rows), key) != []
  {
    hide Keys, Group, KeyOf;
    var keys := Keys(Ordered(rows));
    KeysCover(Ordered(rows));
    var same := (x: GroupKey, y: GroupKey) => x == y;
    ApartPermuted(keys, SortedKeys(rows), same);
    assert forall i, j :: 0 <= i < j < |SortedKeys(rows)| ==> !same(SortedKeys(rows)[i], SortedKeys(rows)[j]);
    forall key ensures key in keys <==> key in SortedKeys(rows) {
      assert key in keys <==> key in multiset(keys);
      assert key in SortedKeys(rows) <==> key in multiset(SortedKeys(rows));
    }
  }

  lemma {:induction false} RelationsFollow(h: Digest.Hash, rows: seq<OldRow>, keys: seq<GroupKey>, i: nat)
    requires i < |Relations(h, rows, keys)|
    ensures |Relations(h, rows, keys)| == |Regrouped(rows, keys)|
    ensures var r := Regrouped(rows, keys)[i];
            Relations(h, rows, keys)[i] == RelationOf(DiscoveryId(h, KeyOf(r), Group(rows, KeyOf(r))), r) && KeyOf(r) in keys
  {
    hide DiscoveryId, Group, KeyOf;
    var front, group := keys[..|keys| - 1], Group(rows, Last(keys));
    SameLengths(h, rows, front);
    SameLengths(h, rows, keys);
    assert keys == front + [Last(keys)];
    var n := |Relations(h, rows, front)|;
    if i < n {
      RelationsFollow(h, rows, front, i);
      assert Regrouped(rows, keys)[i] == Regrouped(rows, front)[i];
      assert Relations(h, rows, keys)[i] == Relations(h, rows, front)[i];
    } else {
      GroupMember(rows, Last(keys), i - n);
      assert Regrouped(rows, keys)[i] == group[i - n];
      assert Relations(h, rows, keys)[i] == RelationsOfGroup(h, Last(keys), group)[i - n];
    }
  }

  lemma {:induction false} SameLengths(h: Digest.Hash, rows: seq<OldRow>, keys: seq<GroupKey>)
    ensures |Relations(h, rows, keys)| == |Regrouped(rows, keys)|
  {
    if keys != [] { SameLengths(h, rows, keys[..|keys| - 1]); }
  }

  lemma {:induction false} GroupMember(rows: seq<OldRow>, key: GroupKey, i: nat)
    requires i < |Group(rows, key)|
    ensures KeyOf(Group(rows, key)[i]) == key
  {
    var front := rows[..|rows| - 1];
    if i < |Group(front, key)| { GroupMember(front, key, i); }
  }

  /**
   The migration partitions the old relations: regrouped, they are the same rows, each once; the
   i-th new relation carries the i-th regrouped row unchanged, in the discovery of that row's own
   parent and relation type.
   */
  lemma RelationsArePartitioned(h: Digest.Hash, rows: seq<OldRow>)
    ensures var regrouped, relations := Regrouped(Ordered(rows), SortedKeys(rows)), Relations(h, Ordered(rows), SortedKeys(rows));
            && multiset(regrouped) == multiset(rows) && |relations| == |regrouped| == |rows|
            && forall i :: 0 <= i < |relations| ==>
                 var r := regrouped[i];
                 relations[i] == RelationOf(DiscoveryId(h, KeyOf(r), Group(Ordered(rows), KeyOf(r))), r)
  {
    hide Regrouped, Relations, Keys, Group, DiscoveryId, KeyOf;
    var ordered, keys := Ordered(rows), SortedKeys(rows);
    SortedKeysCover(rows);
    forall r ensures multiset(Regrouped(ordered, keys))[r] == multiset(rows)[r] {
      RegroupedCount(ordered, keys, r);
      if KeyOf(r) !in keys {
        assert r !in ordered;
        assert r !in multiset(ordered);
      }
    }
    SameLengths(h, ordered, keys);
    SameSize(Regrouped(ordered, keys), rows);
    forall i | 0 <= i < |Relations(h, ordered, keys)|
      ensures var r := Regrouped(ordered, keys)[i];
              Relations(h, ordered, keys)[i] == RelationOf(DiscoveryId(h, KeyOf(r), Group(ordered, KeyOf(r))), r)
    {
      RelationsFollow(h, ordered, keys, i);
    }
  }

  lemma {:induction false} AllDiscoveries(h: Digest.Hash, rows: seq<OldRow>, keys: seq<GroupKey>)
    requires forall key :: key in keys ==> Group(rows, key) != []
    ensures |Discoveries(h, rows, keys)| == |keys|
    ensures forall i :: 0 <= i < |keys| ==> Discoveries(h, rows, keys)[i] == DiscoveryOf(h, keys[i], Group(rows, keys[i]))
  {
    hide Group, DiscoveryOf;
    if keys != [] {
      AllDiscoveries(h, rows, keys[..|keys| - 1]);
    }
  }

  /** One discovery for each parent and relation type, in ascending order, with its group's size as member count. */
  lemma DiscoveriesMatchGroups(h: Digest.Hash, rows: seq<OldRow>, i: nat)
    requires i < |SortedKeys(rows)|
    ensures var keys, found := SortedKeys(rows), Discoveries(h, Ordered(rows), SortedKeys(rows));
            && |found| == |keys| && Distinct(keys) && Group(Ordered(rows), keys[i]) != []
            && found[i] == DiscoveryOf(h, keys[i], Group(Ordered(rows), keys[i]))
            && found[i].row.parentItem == keys[i].0 && found[i].row.relationType == keys[i].1
            && found[i].row.memberCount == |Group(Ordered(rows), keys[i])|
  {
    hide Group, Keys, Discoveries, DiscoveryId, SnapshotHash, MembersText, FirstAttempt, Earliest;
    SortedKeysCover(rows);
    AllDiscoveries(h, Ordered(rows), SortedKeys(rows));
  }

  // ------------------------------------------------------------------ discovery ids

  lemma SplitAtNul(a: string, b: string, c: string, d: string)
    requires NoNul(a) && NoNul(c) && a + ("\0" + b) == c + ("\0" + d)
    ensures a == c && b == d
  {
    var t := a + ("\0" + b);
    assert t[|a|] == '\0';
    assert t[|c|] == '\0';
    assert forall i :: 0 <= i < |a| ==> t[i] == a[i];
    assert forall i :: 0 <= i < |c| ==> t[i] == c[i];
    assert |a| == |c|;
    assert a == t[..|a|] && c == t[..|a|];
    assert b == t[|a| + 1..] && d == t[|a| + 1..];
  }

  lemma FrameText(a: string, b: string, c: string)
    ensures a + "\0" + b + "\0" + c == a + ("\0" + (b + ("\0" + c)))
  {
  }

  lemma SameFrameSameKey(h: Digest.Hash, a: GroupKey, x: seq<OldRow>, b: GroupKey, y: seq<OldRow>)
    requires NoNul(a.0) && NoNul(a.1) && NoNul(b.0) && NoNul(b.1) && IdentityFrame(h, a, x) == IdentityFrame(h, b, y)
    ensures a == b
  {
    hide SnapshotHash, NoNul;
    var s, t := SnapshotHash(h, x), SnapshotHash(h, y);
    Utf8.EncodeInjective(a.0 + "\0" + a.1 + "\0" + s, b.0 + "\0" + b.1 + "\0" + t);
    FrameText(a.0, a.1, s);
    FrameText(b.0, b.1, t);
    SplitAtNul(a.0, a.1 + ("\0" + s), b.0, b.1 + ("\0" + t));
    SplitAtNul(a.1, s, b.1, t);
  }

  /** Different groups get different discovery ids, unless the digest collides on their two frames. */
  lemma DiscoveryIdsApart(h: Digest.Hash, a: GroupKey, x: seq<OldRow>, b: GroupKey, y: seq<OldRow>)
    requires NoNul(a.0) && NoNul(a.1) && NoNul(b.0) && NoNul(b.1)
    requires Digest.CollisionFree(h, {IdentityFrame(h, a, x), IdentityFrame(h, b, y)})
    requires DiscoveryId(h, a, x) == DiscoveryId(h, b, y)
    ensures a == b
  {
    hide IdentityFrame, NoNul;
    assert h(IdentityFrame(h, a, x)) == DiscoveryId(h, a, x)[|ID_PREFIX|..];
    assert h(IdentityFrame(h, b, y)) == DiscoveryId(h, b, y)[|ID_PREFIX|..];
    SameFrameSameKey(h, a, x, b, y);
  }

  // ----------------------------------------------------------------------- audit

  lemma LegacyNames()
    ensures Less("child_source_item_id", "media_kind") && Less("media_kind", "ordinal") && Less("ordinal", "selector_key")
    ensures "ordinal" in LEGACY_NAMES && "ordinal" !in NEW_NAMES
  {
    assert |"ordinal"| == 7 && |"child_source_id"| == 15 && |"media_kind"| == 10 && |"selector_key"| == 12;
  }

  lemma MemberReads(r: OldRow)
    ensures IsCanonical(MemberValue(r))
    ensures var fields := MemberValue(r).fields;
            && Get(fields, "child_source_item_id") == Some(Str(r.child)) && Get(fields, "media_kind") == Some(Str(UNKNOWN))
            && Get(fields, "ordinal") == Some(Num(r.ordinal)) && Get(fields, "selector_key") == Some(Null)
  {
    hide Less, Get;
    var fields := MemberValue(r).fields;
    LegacyNames();
    StepwiseIncreasing(fields);
    IncreasingGet(fields, 0);
    IncreasingGet(fields, 1);
    IncreasingGet(fields, 2);
    IncreasingGet(fields, 3);
  }

  lemma MemberHasLegacyNames(r: OldRow)
    ensures HasNames(MemberValue(r), LEGACY_NAMES) && !HasNames(MemberValue(r), NEW_NAMES)
  {
    hide UNKNOWN;
    LegacyNames();
    var fields := MemberValue(r).fields;
    assert fields[0] in fields && fields[1] in fields && fields[2] in fields && fields[3] in fields;
    assert (set f | f in fields :: f.name) == LEGACY_NAMES;
  }

  lemma MembersTextReads(group: seq<OldRow>)
    ensures IsCanonicalText(MembersText(group)) && Loads(MembersText(group)) == Some(Arr(MemberValues(group)))
  {
    hide Print, Loads, MemberValue;
    var v := Arr(MemberValues(group));
    forall i | 0 <= i < |group| ensures IsCanonical(MemberValues(group)[i]) {
      MemberReads(group[i]);
    }
    assert IsCanonical(v);
    CanonicalStays(v);
    LoadsDumps(v, Compact);
  }

  /** The rows the audit's query finds for a migrated discovery, in ordinal order. */
  ghost predicate Joined(h: Digest.Hash, key: GroupKey, group: seq<OldRow>, relations: seq<RelationRow>) {
    && |relations| == |group|
    && forall i :: 0 <= i < |group| ==>
         var r := relations[i];
         && r.discoveryId == DiscoveryId(h, key, group) && r.id == group[i].id && r.parentItem == key.0 && r.childItem == group[i].child
         && r.relationType == key.1 && r.ordinal == group[i].ordinal && r.kind == UNKNOWN && r.attempt == group[i].attempt
  }

  /** Numbered 0 to n-1, with every attempt made for the parent. */
  ghost predicate Auditable(key: GroupKey, group: seq<OldRow>, attempts: map<string, AttemptOwner>) {
    forall i :: 0 <= i < |group| ==>
      group[i].ordinal == i && (group[i].attempt.Some? ==> OwnedBy(attempts, group[i].attempt.value, key.0))
  }

  lemma {:induction false} FirstAttemptIsOne(group: seq<OldRow>)
    ensures FirstAttempt(group).Some? ==> exists i :: 0 <= i < |group| && group[i].attempt == FirstAttempt(group)
  {
    if group != [] && group[0].attempt.None? {
      FirstAttemptIsOne(group[1..]);
      if FirstAttempt(group[1..]).Some? {
        var i :| 0 <= i < |group[1..]| && group[1..][i].attempt == FirstAttempt(group[1..]);
        assert group[i + 1].attempt == FirstAttempt(group);
      }
    } else if group != [] {
      assert group[0].attempt == FirstAttempt(group);
    }
  }

  lemma LegacyMemberOk(h: Digest.Hash, unsafe: char -> bool, key: GroupKey, group: seq<OldRow>, relations: seq<RelationRow>,
                       attempts: map<string, AttemptOwner>, i: nat)
    requires group != [] && Joined(h, key, group, relations) && i < |group|
    ensures MemberOk(h, unsafe, DiscoveryOf(h, key, group).row, attempts, false, i, MemberValue(group[i]), relations[i])
            <==> group[i].ordinal == i && (group[i].attempt.Some? ==> OwnedBy(attempts, group[i].attempt.value, key.0))
  {
    hide Get, DiscoveryId, SnapshotHash, MembersText, FirstAttempt, Earliest, IsCanonical, ValidMemberIdentity, OwnedBy, UNKNOWN, MemberValue;
    MemberReads(group[i]);
    MemberIsObject(group[i]);
  }

  lemma LegacyShapes(group: seq<OldRow>)
    requires group != []
    ensures LegacyShape(MemberValues(group)) && !NewShape(MemberValues(group))
    ensures forall i :: 0 <= i < |group| ==> MemberValues(group)[i] == MemberValue(group[i])
  {
    hide HasNames, MemberValue;
    forall i | 0 <= i < |group| ensures HasNames(MemberValues(group)[i], LEGACY_NAMES) && !HasNames(MemberValues(group)[i], NEW_NAMES) {
      MemberHasLegacyNames(group[i]);
    }
    assert !HasNames(MemberValues(group)[0], NEW_NAMES);
  }

  lemma LegacyTextOk(h: Digest.Hash, key: GroupKey, group: seq<OldRow>)
    requires group != []
    ensures TextOk(h, DiscoveryOf(h, key, group).row)
  {
    hide Loads, IsCanonicalText, MembersText, DiscoveryId, FirstAttempt, Earliest;
    MembersTextReads(group);
  }

  lemma LegacyAttemptOk(h: Digest.Hash, key: GroupKey, group: seq<OldRow>, attempts: map<string, AttemptOwner>)
    requires group != [] && Auditable(key, group, attempts)
    ensures AttemptOk(DiscoveryOf(h, key, group).row, attempts, MemberValues(group))
  {
    hide NewShape, LegacyShape, MembersText, SnapshotHash, DiscoveryId, Earliest, FirstAttempt;
    LegacyShapes(group);
    FirstAttemptIsOne(group);
  }

  /**
   A migrated discovery passes the backup audit's legacy-shape checks exactly when its group was
   numbered 0 to n-1 and every attempt it names was made for its parent.
   */
  lemma MigratedDiscoveryAuditsExactly(h: Digest.Hash, unsafe: char -> bool, key: GroupKey, group: seq<OldRow>,
                                       relations: seq<RelationRow>, attempts: map<string, AttemptOwner>)
    requires group != [] && Joined(h, key, group, relations)
    ensures DiscoveryOk(h, unsafe, DiscoveryOf(h, key, group).row, relations, attempts) <==> Auditable(key, group, attempts)
  {
    hide Loads, MemberOk, AttemptOk, NewShape, LegacyShape, TextOk, MembersText, SnapshotHash, DiscoveryId, Earliest, FirstAttempt,
      MemberValue, OwnedBy;
    var d := DiscoveryOf(h, key, group).row;
    MembersTextReads(group);
    LegacyTextOk(h, key, group);
    LegacyShapes(group);
    var items := MemberValues(group);
    assert Loads(d.membersJson) == Some(Arr(items));
    forall i | 0 <= i < |items|
      ensures items[i].Obj?
      ensures MemberOk(h, unsafe, d, attempts, false, i, items[i], relations[i])
              <==> group[i].ordinal == i && (group[i].attempt.Some? ==> OwnedBy(attempts, group[i].attempt.value, key.0))
    {
      MemberIsObject(group[i]);
      LegacyMemberOk(h, unsafe, key, group, relations, attempts, i);
    }
    if Auditable(key, group, attempts) {
      LegacyAttemptOk(h, key, group, attempts);
    }
  }

  lemma MemberIsObject(r: OldRow)
    ensures MemberValue(r).Obj?
  {
  }
}
