/**
 The graph's validators and its audit in literal terms: ids, keys and kinds, refusals of the builder,
 and what a stored member must agree on with its row.
 */
module GraphRules {
  import opened Common
  import opened Decimal
  import opened Json
  import opened JsonCanonical
  import opened Graph
  import opened GraphAudit
  import Digest
  import Utf8

  /** A post id is 1 to 64 digits. */
  lemma PostIdExactly(s: string)
    ensures PostId(s) <==> 1 <= |s| <= 64 && forall c :: c in s ==> '0' <= c <= '9'
  {
    DigitsExactly(s);
  }

  lemma {:induction false} DigitsExactly(s: string)
    ensures AllDigits(s) <==> forall c :: c in s ==> '0' <= c <= '9'
  {
    if AllDigits(s) {
      forall c | c in s ensures '0' <= c <= '9' {
        var i :| 0 <= i < |s| && s[i] == c;
        assert IsDigit(s[i]);
      }
    }
    if forall c :: c in s ==> '0' <= c <= '9' {
      forall i | 0 <= i < |s| ensures IsDigit(s[i]) { assert s[i] in s; }
    }
  }

  /** A key is 1 to 256 characters, none of them unsafe. */
  lemma KeyExactly(unsafe: Unsafe, s: string)
    ensures ValidKey(unsafe, s) <==> 1 <= |s| <= 256 && forall c :: c in s ==> !unsafe(c)
  {
    if forall c :: c in s ==> !unsafe(c) {
      forall i | 0 <= i < |s| ensures !unsafe(s[i]) { assert s[i] in s; }
    }
  }

  /** A kind is `[a-z][a-z0-9_]{0,31}`. */
  lemma KindExactly(s: string)
    ensures ValidKind(s)
            <==> 1 <= |s| <= 32 && 'a' <= s[0] <= 'z' && forall c :: c in s ==> 'a' <= c <= 'z' || '0' <= c <= '9' || c == '_'
  {
    if 1 <= |s| && forall c :: c in s ==> 'a' <= c <= 'z' || '0' <= c <= '9' || c == '_' {
      forall i | 0 <= i < |s| ensures 'a' <= s[i] <= 'z' || '0' <= s[i] <= '9' || s[i] == '_' { assert s[i] in s; }
    }
  }

  /** The locator and the id of a child, as text; the id hashes the parent's JSON identity, a zero byte and the key. */
  lemma ChildTexts(h: Digest.Hash, id: string, key: string)
    ensures Locator(id, key) == "https://x.com/i/status/" + id + "#vdc-media=" + Utf8.Quote(key)
    ensures SourceId(h, id, key)
            == "xatt:v1:" + h(Utf8.Encode(Print(Arr([Str("x"), Str("x_post"), Str(id)]), Compact, 0)) + [0] + Utf8.Encode(key))
  {
    hide Print, Utf8.Quote, Utf8.Encode;
  }

  ghost predicate SharesStableKey(members: seq<Member>) {
    exists i, j :: 0 <= i < j < |members| && members[i].stableKey == members[j].stableKey
  }

  ghost predicate SharesSelector(members: seq<Member>) {
    exists i, j :: 0 <= i < j < |members| && members[i].selectorKey == members[j].selectorKey
  }

  ghost predicate Numbered(members: seq<Member>) {
    forall i :: 0 <= i < |members| ==> members[i].ordinal == i
  }

  /** Which memberships are refused, and why: the first of these that applies. */
  lemma MembershipRefusals(members: seq<Member>)
    ensures MembersJson(members)
            == if |members| == 0 || |members| > 50 then Err(CountOutside)
               else if !Numbered(members) then Err(OrderInvalid)
               else if SharesStableKey(members) then Err(StableKeyRepeated)
               else if SharesSelector(members) then Err(SelectorRepeated)
               else Ok(Print(MembersValue(members), Compact, 0))
  {
    hide Print;
    if MembersJson(members).Ok? { MembersJsonRoundTrip(members); }
  }

  /** Why the builder refuses its k-th item: the first of these that applies. */
  lemma ItemRefusals(unsafe: Unsafe, parent: string, parentUrl: string, items: seq<ProbeItem>, k: nat)
    requires k < |items|
    ensures var item := items[k];
            Objection(unsafe, parent, parentUrl, items, k)
            == if k >= 50 then Some(CountOutside)
               else if !(ValidKey(unsafe, item.stableKey) && ValidKey(unsafe, item.selectorKey) && ValidKey(unsafe, item.mediaKey))
               then Some(KeyInvalid)
               else if exists j :: 0 <= j < k && items[j].stableKey == item.stableKey then Some(StableKeyRepeated)
               else if exists j :: 0 <= j < k && items[j].selectorKey == item.selectorKey then Some(SelectorRepeated)
               else if parentUrl != "https://x.com/i/status/" + parent then Some(ParentUrlInvalid)
               else if !ValidKind(item.kind) then Some(KindInvalid)
               else None
  {
    hide ValidKey, ValidKind;
  }

  // ---------------------------------------------------------------------- the audit

  /** The value is the text, or `null` where there is none. */
  predicate Shows(v: Option<Value>, text: Option<string>) {
    v == Some(if text.Some? then Str(text.value) else Null)
  }

  lemma EqualsTextShows(v: Option<Value>, text: Option<string>)
    ensures EqualsText(v, text) <==> Shows(v, text)
  {
  }

  /** The row is of the discovery's parent and type, and the member shows its kind. */
  ghost predicate SameGroup(d: DiscoveryRow, member: Value, r: RelationRow)
    requires member.Obj?
  {
    r.parentItem == d.parentItem && r.relationType == d.relationType && Shows(Get(member.fields, "media_kind"), Some(r.kind))
  }

  lemma NewMemberExactly(h: Digest.Hash, unsafe: Unsafe, d: DiscoveryRow, attempts: map<string, AttemptOwner>,
                         ordinal: nat, member: Value, r: RelationRow)
    requires member.Obj?
    ensures MemberOk(h, unsafe, d, attempts, true, ordinal, member, r)
            <==> && SameGroup(d, member, r) && r.ordinal == ordinal && r.attempt == d.attempt
                 && Shows(Get(member.fields, "child_source_id"), r.child.identity)
                 && (exists key :: Get(member.fields, "selector_key") == Some(Str(key)) && ValidKey(unsafe, key))
                 && ValidKind(r.kind) && ValidMemberIdentity(h, unsafe, r)
  {
    hide Get, ValidKey, ValidKind, ValidMemberIdentity, EqualsText, Shows;
    EqualsTextShows(Get(member.fields, "media_kind"), Some(r.kind));
    EqualsTextShows(Get(member.fields, "child_source_id"), r.child.identity);
  }

  lemma LegacyMemberExactly(h: Digest.Hash, unsafe: Unsafe, d: DiscoveryRow, attempts: map<string, AttemptOwner>,
                            ordinal: nat, member: Value, r: RelationRow)
    requires member.Obj?
    ensures MemberOk(h, unsafe, d, attempts, false, ordinal, member, r)
            <==> && SameGroup(d, member, r)
                 && Shows(Get(member.fields, "child_source_item_id"), Some(r.childItem))
                 && EqualsInt(Get(member.fields, "ordinal"), ordinal) && Get(member.fields, "selector_key") == Some(Null)
                 && (r.attempt.Some? ==> r.attempt.value in attempts && attempts[r.attempt.value].sourceItem == d.parentItem)
  {
    hide Get, EqualsText, EqualsInt, Shows;
    EqualsTextShows(Get(member.fields, "media_kind"), Some(r.kind));
    EqualsTextShows(Get(member.fields, "child_source_item_id"), Some(r.childItem));
  }

  /** The names of an object's members, each item of the list having exactly these. */
  ghost predicate AllNamed(items: seq<Value>, names: set<string>) {
    forall i :: 0 <= i < |items| ==> items[i].Obj? && (set f | f in items[i].fields :: f.name) == names
  }

  lemma NamesAreExact(items: seq<Value>)
    ensures NewShape(items) <==> AllNamed(items, {"child_source_id", "media_kind", "selector_key"})
    ensures LegacyShape(items) <==> AllNamed(items, {"child_source_item_id", "media_kind", "ordinal", "selector_key"})
  {
  }

  /** Whose attempt a discovery may name: a new one must name a discovery attempt of its parent, an old one may name any of its parent. */
  lemma AttemptExactly(d: DiscoveryRow, attempts: map<string, AttemptOwner>, items: seq<Value>)
    ensures AttemptOk(d, attempts, items)
            <==> && (NewShape(items) ==>
                       exists id :: d.attempt == Some(id) && id in attempts && attempts[id] == AttemptOwner(d.parentItem, "discover"))
                 && (LegacyShape(items) && d.attempt.Some? ==>
                       d.attempt.value in attempts && attempts[d.attempt.value].sourceItem == d.parentItem)
  {
    hide NewShape, LegacyShape;
  }
}
