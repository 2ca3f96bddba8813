/** The restore-time audit of graph discoveries. */
module GraphAudit {
  /*
   One `source_discoveries` row, its `source_relations` rows in ordinal order, and the attempts that
   may have made them.
   */

  import opened Common
  import Utf8
  import Digest
  import opened Json
  import opened JsonCanonical
  import opened Graph

  datatype DiscoveryRow = DiscoveryRow(
    id: string, parentItem: string, relationType: string, snapshotHash: string, membersJson: string,
    memberCount: int, attempt: Option<string>)

  /** A `source_items` row as the join brings it in. */
  datatype Item = Item(identity: Option<string>, url: string, platform: string, sourceType: string)

  datatype RelationRow = RelationRow(
    id: string, discoveryId: string, parentItem: string, childItem: string, relationType: string,
    ordinal: int, kind: string, attempt: Option<string>, child: Item, parent: Item)

  datatype AttemptOwner = AttemptOwner(sourceItem: string, jobKind: string)

  // ---------------------------------------------------------- member identity

  /** `_valid_graph_member_identity`. */
  predicate ValidMemberIdentity(h: Digest.Hash, unsafe: Unsafe, r: RelationRow) {
    && r.parent.platform == "x" && r.parent.sourceType == "x_post"
    && r.child.platform == "x" && r.child.sourceType == "x_attachment"
    && var prefix := r.parent.url + LOCATOR_MARK;
       StartsWith(r.child.url, prefix)
       && r.parent.identity.Some? && PostId(r.parent.identity.value)
       && var id := r.parent.identity.value;
          var key := Utf8.Unquote(r.child.url[|prefix|..]);
          && r.parent.url == ParentUrl(id)
          && ValidKey(unsafe, key) && r.child.url == Locator(id, key)
          && r.child.identity == Some(SourceId(h, id, key))
  }

  /** `key` explains the relation: it yields the child's locator and its source id under this parent. */
  predicate Explains(h: Digest.Hash, unsafe: Unsafe, r: RelationRow, key: string) {
    && ValidKey(unsafe, key)
    && r.parent.identity.Some? && PostId(r.parent.identity.value) && r.parent.url == ParentUrl(r.parent.identity.value)
    && r.child.url == Locator(r.parent.identity.value, key)
    && r.child.identity == Some(SourceId(h, r.parent.identity.value, key))
  }

  /**
   The member check accepts an X attachment relation if and only if some valid stable key
   produces both its locator and its source id for that parent, and that key is unique.
   */
  lemma MemberIdentityIsExact(h: Digest.Hash, unsafe: Unsafe, r: RelationRow)
    ensures ValidMemberIdentity(h, unsafe, r) <==>
            && r.parent.platform == "x" && r.parent.sourceType == "x_post"
            && r.child.platform == "x" && r.child.sourceType == "x_attachment"
            && exists key :: Explains(h, unsafe, r, key)
    ensures forall key, key' :: Explains(h, unsafe, r, key) && Explains(h, unsafe, r, key') ==> key == key'
  {
    hide SourceId, Utf8.Quote, Utf8.Unquote, ValidKey;
    forall key | Explains(h, unsafe, r, key)
      ensures StartsWith(r.child.url, r.parent.url + LOCATOR_MARK)
      ensures key == Utf8.Unquote(r.child.url[|r.parent.url + LOCATOR_MARK|..])
    {
      var prefix := r.parent.url + LOCATOR_MARK;
      assert r.child.url == prefix + Utf8.Quote(key);
      assert r.child.url[|prefix|..] == Utf8.Quote(key);
      Utf8.UnquoteQuoted(key);
    }
    if ValidMemberIdentity(h, unsafe, r) {
      assert Explains(h, unsafe, r, Utf8.Unquote(r.child.url[|r.parent.url + LOCATOR_MARK|..]));
    }
  }

  // -------------------------------------------------------------- one discovery

  const NEW_NAMES := {"child_source_id", "media_kind", "selector_key"}
  const LEGACY_NAMES := {"child_source_item_id", "media_kind", "ordinal", "selector_key"}

  predicate NewShape(items: seq<Value>) {
    forall i :: 0 <= i < |items| ==> HasNames(items[i], NEW_NAMES)
  }

  predicate LegacyShape(items: seq<Value>) {
    forall i :: 0 <= i < |items| ==> HasNames(items[i], LEGACY_NAMES)
  }

  predicate OwnedBy(attempts: map<string, AttemptOwner>, attempt: string, item: string) {
    attempt in attempts && attempts[attempt].sourceItem == item
  }

  /** One member against its relation row. */
  predicate MemberOk(h: Digest.Hash, unsafe: Unsafe, d: DiscoveryRow, attempts: map<string, AttemptOwner>,
                     newShape: bool, ordinal: nat, member: Value, r: RelationRow)
    requires member.Obj?
  {
    && r.parentItem == d.parentItem && r.relationType == d.relationType
    && EqualsText(Get(member.fields, "media_kind"), Some(r.kind))
    && if newShape then
         && r.ordinal == ordinal && EqualsText(Get(member.fields, "child_source_id"), r.child.identity)
         && r.attempt == d.attempt
         && (var s := Get(member.fields, "selector_key"); s.Some? && s.value.Str? && ValidKey(unsafe, s.value.s))
         && ValidKind(r.kind) && ValidMemberIdentity(h, unsafe, r)
       else
         && EqualsText(Get(member.fields, "child_source_item_id"), Some(r.childItem))
         && EqualsInt(Get(member.fields, "ordinal"), ordinal)
         && Get(member.fields, "selector_key") == Some(Null)
         && (r.attempt.Some? ==> OwnedBy(attempts, r.attempt.value, d.parentItem))
  }

  /** The attempt a discovery names must have been made for its parent. */
  predicate AttemptOk(d: DiscoveryRow, attempts: map<string, AttemptOwner>, items: seq<Value>) {
    && (NewShape(items) ==>
          d.attempt.Some? && OwnedBy(attempts, d.attempt.value, d.parentItem) && attempts[d.attempt.value].jobKind == "discover")
    && (LegacyShape(items) && d.attempt.Some? ==> OwnedBy(attempts, d.attempt.value, d.parentItem))
  }

  /** The stored membership text is canonical, counted and hashed. */
  predicate TextOk(h: Digest.Hash, d: DiscoveryRow) {
    && IsCanonicalText(d.membersJson) && Loads(d.membersJson).value.Arr?
    && var items := Loads(d.membersJson).value.items;
       && (forall i :: 0 <= i < |items| ==> items[i].Obj?)
       && |items| == d.memberCount && h(Utf8.Encode(d.membersJson)) == d.snapshotHash
  }

  predicate DiscoveryOk(h: Digest.Hash, unsafe: Unsafe, d: DiscoveryRow, relations: seq<RelationRow>,
                        attempts: map<string, AttemptOwner>)
  {
    && TextOk(h, d)
    && var items := Loads(d.membersJson).value.items;
       && |relations| == |items| && (NewShape(items) || LegacyShape(items)) && AttemptOk(d, attempts, items)
       && forall i :: 0 <= i < |items| ==> MemberOk(h, unsafe, d, attempts, NewShape(items), i, items[i], relations[i])
  }

  /** The rows a discovery owns, in the order of the ordered query. */
  function RelationsOf(relations: seq<RelationRow>, discovery: string): seq<RelationRow> {
    if relations == [] then []
    else
      (if relations[0].discoveryId == discovery then [relations[0]] else []) + RelationsOf(relations[1..], discovery)
  }

  ghost predicate AllDiscoveriesOk(h: Digest.Hash, unsafe: Unsafe, discoveries: seq<DiscoveryRow>, relations: seq<RelationRow>,
                                   attempts: map<string, AttemptOwner>)
  {
    forall k :: 0 <= k < |discoveries| ==>
      DiscoveryOk(h, unsafe, discoveries[k], RelationsOf(relations, discoveries[k].id), attempts)
  }

  method AuditMembers(h: Digest.Hash, unsafe: Unsafe, d: DiscoveryRow, relations: seq<RelationRow>,
                      attempts: map<string, AttemptOwner>, items: seq<Value>)
    returns (ok: bool)
    requires |items| == |relations| && forall i :: 0 <= i < |items| ==> items[i].Obj?
    ensures ok <==> forall i :: 0 <= i < |items| ==> MemberOk(h, unsafe, d, attempts, NewShape(items), i, items[i], relations[i])
  {
    hide MemberOk;
    var newShape := NewShape(items);
    for ordinal := 0 to |items|
      invariant forall i :: 0 <= i < ordinal ==> MemberOk(h, unsafe, d, attempts, newShape, i, items[i], relations[i])
    {
      if !MemberOk(h, unsafe, d, attempts, newShape, ordinal, items[ordinal], relations[ordinal]) {
        return false;
      }
    }
    return true;
  }

  /** The discovery part of `_audit_graph_state`: every stored discovery, against its own relations. */
  method AuditDiscoveries(h: Digest.Hash, unsafe: Unsafe, discoveries: seq<DiscoveryRow>, relations: seq<RelationRow>,
                          attempts: map<string, AttemptOwner>)
    returns (ok: bool)
    ensures ok <==> AllDiscoveriesOk(h, unsafe, discoveries, relations, attempts)
  {
    hide TextOk, NewShape, LegacyShape, AttemptOk, MemberOk, RelationsOf, Loads;
    var byDiscovery := GroupRelations(relations);
    for k := 0 to |discoveries|
      invariant forall j :: 0 <= j < k ==>
                  DiscoveryOk(h, unsafe, discoveries[j], RelationsOf(relations, discoveries[j].id), attempts)
    {
      var d := discoveries[k];
      if !TextOk(h, d) {
        return false;
      }
      TextHasItems(h, d);
      var items := Loads(d.membersJson).value.items;
      var own := if d.id in byDiscovery then byDiscovery[d.id] else [];
      if |own| != |items| || !(NewShape(items) || LegacyShape(items)) || !AttemptOk(d, attempts, items) {
        return false;
      }
      var members := AuditMembers(h, unsafe, d, own, attempts, items);
      if !members {
        return false;
      }
    }
    return true;
  }

  lemma TextHasItems(h: Digest.Hash, d: DiscoveryRow)
    requires TextOk(h, d)
    ensures Loads(d.membersJson).Some? && Loads(d.membersJson).value.Arr?
    ensures var items := Loads(d.membersJson).value.items; forall i :: 0 <= i < |items| ==> items[i].Obj?
  {
  }

  method GroupRelations(relations: seq<RelationRow>) returns (byDiscovery: map<string, seq<RelationRow>>)
    ensures forall id :: RelationsOf(relations, id) == if id in byDiscovery then byDiscovery[id] else []
  {
    byDiscovery := map[];
    for k := 0 to |relations|
      invariant forall id :: RelationsOf(relations[..k], id) == if id in byDiscovery then byDiscovery[id] else []
    {
      var r := relations[k];
      assert relations[..k + 1] == relations[..k] + [r];
      forall id ensures RelationsOf(relations[..k + 1], id)
                        == RelationsOf(relations[..k], id) + (if r.discoveryId == id then [r] else [])
      {
        RelationsOfAppend(relations[..k], r, id);
      }
      var own := if r.discoveryId in byDiscovery then byDiscovery[r.discoveryId] else [];
      byDiscovery := byDiscovery[r.discoveryId := own + [r]];
    }
    assert relations[..|relations|] == relations;
  }

  lemma {:induction false} RelationsOfAppend(relations: seq<RelationRow>, r: RelationRow, id: string)
    ensures RelationsOf(relations + [r], id) == RelationsOf(relations, id) + (if r.discoveryId == id then [r] else [])
  {
    if relations == [] {
      assert relations + [r] == [r] && [r][1..] == [];
      assert RelationsOf([], id) == [];
    } else {
      var all := relations + [r];
      assert all[0] == relations[0] && all[1..] == relations[1..] + [r];
      RelationsOfAppend(relations[1..], r, id);
      var first := if relations[0].discoveryId == id then [relations[0]] else [];
      var last := if r.discoveryId == id then [r] else [];
      assert RelationsOf(all, id) == first + RelationsOf(all[1..], id);
      assert first + (RelationsOf(relations[1..], id) + last) == first + RelationsOf(relations[1..], id) + last;
    }
  }

  // ----------------------------------------- what the builder makes is accepted

  /** The rows a committed discovery of `parent` leaves behind. */
  predicate Mirrors(d: Discovery, parent: string, attempts: map<string, AttemptOwner>,
                    row: DiscoveryRow, relations: seq<RelationRow>)
  {
    && MembersJson(d.members) == Ok(row.membersJson) && row.snapshotHash == d.snapshotHash
    && row.memberCount == |d.members| && |relations| == |d.members|
    && row.attempt.Some? && row.attempt.value in attempts
    && attempts[row.attempt.value] == AttemptOwner(row.parentItem, "discover")
    && forall i :: 0 <= i < |relations| ==>
         var r, m := relations[i], d.members[i];
         && r.parentItem == row.parentItem && r.relationType == row.relationType && r.ordinal == i
         && r.kind == m.kind && r.attempt == row.attempt
         && r.child == Item(Some(m.sourceId), m.url, "x", "x_attachment")
         && r.parent == Item(Some(parent), ParentUrl(parent), "x", "x_post")
  }

  lemma MemberNames(m: Member)
    ensures HasNames(MemberValue(m), NEW_NAMES)
    ensures Get(MemberValue(m).fields, "child_source_id") == Some(Str(m.sourceId))
    ensures Get(MemberValue(m).fields, "media_kind") == Some(Str(m.kind))
    ensures Get(MemberValue(m).fields, "selector_key") == Some(Str(m.selectorKey))
  {
    var fields := MemberValue(m).fields;
    var two := [Field("child_source_id", Str(m.sourceId)), Field("media_kind", Str(m.kind))];
    assert fields[..2] == two;
    assert two[..1] == [Field("child_source_id", Str(m.sourceId))];
    assert |"child_source_id"| == 15 && |"media_kind"| == 10 && |"selector_key"| == 12;
    assert Get(two, "child_source_id") == Get(two[..1], "child_source_id") == Some(Str(m.sourceId));
    assert "child_source_id"[0] == 'c' && "media_kind"[0] == 'm' && "selector_key"[0] == 's';
    assert fields[0] in fields && fields[1] in fields && fields[2] in fields;
  }

  /** Every discovery the builder returns for a parent passes the new-shape audit of its rows. */
  lemma BuiltDiscoveryPassesAudit(h: Digest.Hash, unsafe: Unsafe, parent: string, items: seq<ProbeItem>, d: Discovery,
                                  attempts: map<string, AttemptOwner>, row: DiscoveryRow, relations: seq<RelationRow>)
    requires PostId(parent) && Buildable(unsafe, parent, ParentUrl(parent), items)
    requires d.members == MembersOf(h, parent, items) && SnapshotHash(h, d.members) == Ok(d.snapshotHash)
    requires Mirrors(d, parent, attempts, row, relations)
    ensures DiscoveryOk(h, unsafe, row, relations, attempts)
  {
    hide Loads, Canonical, IsCanonicalText, Locator, SourceId, MembersJson, ParentUrl, ValidKey, ValidKind,
      HasNames, MemberValue, MemberOk, LegacyShape, Print, PostId, NEW_NAMES, LEGACY_NAMES;
    MembersJsonRoundTrip(d.members);
    var values := MembersValue(d.members).items;
    forall i | 0 <= i < |values|
      ensures values[i].Obj? && HasNames(values[i], NEW_NAMES)
      ensures MemberOk(h, unsafe, row, attempts, true, i, values[i], relations[i])
    {
      BuiltMemberOk(h, unsafe, parent, items, d, attempts, row, relations, i);
      assert values[i] == MemberValue(d.members[i]);
    }
    assert NewShape(values);
  }

  lemma BuiltMemberOk(h: Digest.Hash, unsafe: Unsafe, parent: string, items: seq<ProbeItem>, d: Discovery,
                      attempts: map<string, AttemptOwner>, row: DiscoveryRow, relations: seq<RelationRow>, i: nat)
    requires PostId(parent) && Buildable(unsafe, parent, ParentUrl(parent), items)
    requires d.members == MembersOf(h, parent, items) && Mirrors(d, parent, attempts, row, relations) && i < |relations|
    ensures MemberValue(d.members[i]).Obj? && HasNames(MemberValue(d.members[i]), NEW_NAMES)
    ensures MemberOk(h, unsafe, row, attempts, true, i, MemberValue(d.members[i]), relations[i])
  {
    hide Locator, SourceId, MembersJson, ParentUrl, ValidMemberIdentity, HasNames, Get, ValidKey, ValidKind, PostId, NEW_NAMES,
      Explains, MemberValue;
    MemberNames(d.members[i]);
    MemberIsObject(d.members[i]);
    BuiltIsExplained(h, unsafe, parent, items, d, attempts, row, relations, i);
    ExplainedIsValid(h, unsafe, relations[i], items[i].stableKey);
  }

  lemma MemberIsObject(m: Member)
    ensures MemberValue(m).Obj?
  {
  }

  lemma BuiltIsExplained(h: Digest.Hash, unsafe: Unsafe, parent: string, items: seq<ProbeItem>, d: Discovery,
                         attempts: map<string, AttemptOwner>, row: DiscoveryRow, relations: seq<RelationRow>, i: nat)
    requires PostId(parent) && Buildable(unsafe, parent, ParentUrl(parent), items)
    requires d.members == MembersOf(h, parent, items) && Mirrors(d, parent, attempts, row, relations) && i < |relations|
    ensures Explains(h, unsafe, relations[i], items[i].stableKey)
  {
    hide Locator, SourceId, MembersJson, ParentUrl, ValidKey, ValidKind, PostId;
  }

  lemma ExplainedIsValid(h: Digest.Hash, unsafe: Unsafe, r: RelationRow, key: string)
    requires r.parent.platform == "x" && r.parent.sourceType == "x_post" && r.child.platform == "x" && r.child.sourceType == "x_attachment"
    requires Explains(h, unsafe, r, key)
    ensures ValidMemberIdentity(h, unsafe, r)
  {
    hide Explains, ValidMemberIdentity;
    MemberIdentityIsExact(h, unsafe, r);
  }

  /** An accepted new-shape discovery pins its rows: each child is explained by one key, in order. */
  lemma AcceptedRowsAreExplained(h: Digest.Hash, unsafe: Unsafe, d: DiscoveryRow, relations: seq<RelationRow>,
                                 attempts: map<string, AttemptOwner>, i: nat)
    requires DiscoveryOk(h, unsafe, d, relations, attempts) && NewShape(Loads(d.membersJson).value.items)
    requires i < |relations|
    ensures exists key :: Explains(h, unsafe, relations[i], key)
    ensures relations[i].ordinal == i && relations[i].attempt == d.attempt
    ensures d.snapshotHash == h(Utf8.Encode(d.membersJson)) && d.memberCount == |relations|
    ensures OwnedBy(attempts, d.attempt.value, relations[i].parentItem)
  {
    hide Explains, ValidMemberIdentity, IsCanonicalText, Loads, Get, HasNames, ValidKey, ValidKind, EqualsText, LegacyShape;
    TextHasItems(h, d);
    assert MemberOk(h, unsafe, d, attempts, true, i, Loads(d.membersJson).value.items[i], relations[i]);
    MemberIdentityIsExact(h, unsafe, relations[i]);
  }
}
