/** X attachment identities and discovery snapshots. */
module Graph {
  /*
   Framed source ids, percent-encoded locators, canonical membership JSON, the validators and the
   builder.

   `unsafe` is the table of characters in a Unicode category that starts with C.
   */

  import opened Common
  import opened Decimal
  import Utf8
  import Digest
  import opened Json
  import opened JsonCanonical
  import Ordering

  const MAX_ITEMS := 50
  const MAX_KEY_CHARS := 256
  const MAX_KIND_CHARS := 32
  const MAX_POST_ID_CHARS := 64
  const STATUS_URL := "https://x.com/i/status/"
  const LOCATOR_MARK := "#vdc-media="
  const SOURCE_ID_PREFIX := "xatt:v1:"

  type Unsafe = char -> bool

  datatype ProbeItem = ProbeItem(stableKey: string, selectorKey: string, mediaKey: string, kind: string)

  datatype Member = Member(
    ordinal: nat, sourceId: string, url: string,
    stableKey: string, selectorKey: string, mediaKey: string, kind: string)

  datatype Discovery = Discovery(members: seq<Member>, snapshotHash: string)

  datatype GraphError =
    | CountOutside | OrderInvalid | KeyInvalid | StableKeyRepeated | SelectorRepeated | ParentUrlInvalid | KindInvalid

  // ------------------------------------------------------------ single values

  predicate PostId(s: string) {
    1 <= |s| <= MAX_POST_ID_CHARS && AllDigits(s)
  }

  predicate ValidKey(unsafe: Unsafe, s: string) {
    1 <= |s| <= MAX_KEY_CHARS && forall i :: 0 <= i < |s| ==> !unsafe(s[i])
  }

  /** `[a-z][a-z0-9_]{0,31}`. */
  predicate ValidKind(s: string) {
    && 1 <= |s| <= MAX_KIND_CHARS && 'a' <= s[0] <= 'z'
    && forall i :: 1 <= i < |s| ==> 'a' <= s[i] <= 'z' || IsDigit(s[i]) || s[i] == '_'
  }

  function ParentUrl(id: string): string {
    STATUS_URL + id
  }

  function Locator(id: string, key: string): string {
    ParentUrl(id) + LOCATOR_MARK + Utf8.Quote(key)
  }

  /** What is hashed for a child: the parent's compact JSON identity, one zero byte, the key. */
  function IdentityFrame(id: string, key: string): bytes {
    Utf8.Encode(Print(Arr([Str("x"), Str("x_post"), Str(id)]), Compact, 0)) + [0] + Utf8.Encode(key)
  }

  function SourceId(h: Digest.Hash, id: string, key: string): string {
    SOURCE_ID_PREFIX + h(IdentityFrame(id, key))
  }

  predicate IsSourceId(s: string) {
    StartsWith(s, SOURCE_ID_PREFIX) && IsHex64(s[|SOURCE_ID_PREFIX|..])
  }

  // ------------------------------------------------------ framing is injective

  lemma {:induction false} EncodedTextHasNoZero(s: string)
    requires forall i :: 0 <= i < |s| ==> s[i] != '\0'
    ensures 0 !in Utf8.Encode(s)
  {
    if s != [] {
      EncodedTextHasNoZero(s[1..]);
      assert forall i :: 0 <= i < |s[1..]| ==> s[1..][i] == s[i + 1];
      assert 0 !in Utf8.EncodeChar(s[0]);
    }
  }

  lemma {:induction false} EscapedHasNoNul(s: string)
    ensures NoNul(PrintString(s)) && NoNul(EscapeAll(s))
  {
    if s != [] {
      EscapedHasNoNul(s[1..]);
      assert NoNul(EscapeChar(s[0]));
    }
  }

  lemma {:induction false} ItemsHaveNoNul(items: seq<string>)
    ensures NoNul(PrintItems(Strings(items), Compact, 1))
  {
    var values := Strings(items);
    if items != [] {
      EscapedHasNoNul(items[0]);
      assert values[0] == Str(items[0]) && values[1..] == Strings(items[1..]);
      ItemsHaveNoNul(items[1..]);
    }
  }

  function Strings(items: seq<string>): (r: seq<Value>)
    ensures |r| == |items|
  {
    seq(|items|, i requires 0 <= i < |items| => Str(items[i]))
  }

  /** JSON text escapes every control character, so a zero byte can end it. */
  lemma ParentIdentityHasNoZero(id: string)
    ensures 0 !in Utf8.Encode(Print(Arr([Str("x"), Str("x_post"), Str(id)]), Compact, 0))
  {
    hide PrintItems;
    var items := ["x", "x_post", id];
    var values := [Str("x"), Str("x_post"), Str(id)];
    assert Strings(items) == values;
    ItemsHaveNoNul(items);
    var text := Print(Arr(values), Compact, 0);
    var body := PrintItems(values, Compact, 1);
    assert text == "[" + ("" + (body + ("" + "]")));
    assert NoNul(text);
    EncodedTextHasNoZero(text);
  }

  lemma SplitAtZero(a: bytes, b: bytes, c: bytes, d: bytes)
    requires 0 !in a && 0 !in c && a + [0] + b == c + [0] + d
    ensures a == c && b == d
  {
    var t := a + [0] + b;
    assert t[|a|] == 0;
    assert t[|c|] == 0;
    assert forall i :: 0 <= i < |a| ==> t[i] == a[i];
    assert forall i :: 0 <= i < |c| ==> t[i] == c[i];
    assert |a| == |c|;
    assert a == t[..|a|] && c == t[..|a|];
    assert b == t[|a| + 1..] && d == t[|a| + 1..];
  }

  /** No two (parent, key) pairs share a frame. */
  lemma FrameInjective(id: string, key: string, id': string, key': string)
    requires PostId(id) && PostId(id') && IdentityFrame(id, key) == IdentityFrame(id', key')
    ensures id == id' && key == key'
  {
    var p, p' := Arr([Str("x"), Str("x_post"), Str(id)]), Arr([Str("x"), Str("x_post"), Str(id')]);
    ParentIdentityHasNoZero(id);
    ParentIdentityHasNoZero(id');
    hide Print;
    SplitAtZero(Utf8.Encode(Print(p, Compact, 0)), Utf8.Encode(key), Utf8.Encode(Print(p', Compact, 0)), Utf8.Encode(key'));
    Utf8.EncodeInjective(key, key');
    Utf8.EncodeInjective(Print(p, Compact, 0), Print(p', Compact, 0));
    PrintInjective(p, p', Compact);
    assert p.items[2] == p'.items[2];
  }

  /** Equal child ids mean equal parents and keys, unless the digest collides on the two frames. */
  lemma SourceIdTellsApart(h: Digest.Hash, id: string, key: string, id': string, key': string)
    requires PostId(id) && PostId(id')
    requires Digest.CollisionFree(h, {IdentityFrame(id, key), IdentityFrame(id', key')})
    ensures SourceId(h, id, key) == SourceId(h, id', key') <==> id == id' && key == key'
  {
    hide IdentityFrame;
    var a, b := SourceId(h, id, key), SourceId(h, id', key');
    if a == b {
      assert h(IdentityFrame(id, key)) == a[|SOURCE_ID_PREFIX|..];
      assert h(IdentityFrame(id', key')) == b[|SOURCE_ID_PREFIX|..];
      FrameInjective(id, key, id', key');
    }
  }

  // ------------------------------------------------------------------ locators

  /** The post id in `https://x.com/i/status/([0-9]{1,64})#vdc-media=.*`, matched in full. */
  function PostIdOf(url: string): Option<string> {
    if !StartsWith(url, STATUS_URL) then None
    else
      var tail := url[|STATUS_URL|..];
      var n := DigitRun(tail);
      if 1 <= n <= MAX_POST_ID_CHARS && StartsWith(tail[n..], LOCATOR_MARK) && '\n' !in tail[n..]
      then Some(tail[..n]) else None
  }

  lemma {:induction false} QuotedBytesAreOneLine(b: bytes)
    ensures '\n' !in Utf8.QuoteBytes(b)
  {
    if b != [] {
      QuotedBytesAreOneLine(b[1..]);
      assert '\n' !in Utf8.QuoteByte(b[0]);
    }
  }

  lemma PostIdOfLocator(id: string, key: string)
    requires PostId(id)
    ensures PostIdOf(Locator(id, key)) == Some(id)
  {
    hide Utf8.Quote, DigitRun;
    var url := Locator(id, key);
    var rest := LOCATOR_MARK + Utf8.Quote(key);
    assert url == STATUS_URL + (id + rest);
    assert url[..|STATUS_URL|] == STATUS_URL && url[|STATUS_URL|..] == id + rest;
    assert rest[0] == '#';
    DigitRunOf(id, rest);
    assert (id + rest)[..|id|] == id && (id + rest)[|id|..] == rest;
    assert rest[..|LOCATOR_MARK|] == LOCATOR_MARK;
    QuoteIsOneLine(key);
  }

  lemma QuoteIsOneLine(key: string)
    ensures '\n' !in Utf8.Quote(key)
  {
    QuotedBytesAreOneLine(Utf8.Encode(key));
  }

  lemma LocatorInjective(id: string, key: string, id': string, key': string)
    requires PostId(id) && PostId(id') && Locator(id, key) == Locator(id', key')
    ensures id == id' && key == key'
  {
    PostIdOfLocator(id, key);
    PostIdOfLocator(id', key');
    var prefix := ParentUrl(id) + LOCATOR_MARK;
    assert Utf8.Quote(key) == Locator(id, key)[|prefix|..];
    assert Utf8.Quote(key') == Locator(id, key')[|prefix|..];
    Utf8.QuoteInjective(key, key');
  }

  // -------------------------------------------------------------------- members

  /** `XAttachmentMember.__post_init__`. */
  predicate ValidMember(h: Digest.Hash, unsafe: Unsafe, m: Member) {
    && m.ordinal < MAX_ITEMS && IsSourceId(m.sourceId)
    && ValidKey(unsafe, m.stableKey) && ValidKey(unsafe, m.selectorKey) && ValidKey(unsafe, m.mediaKey)
    && ValidKind(m.kind)
    && var id := PostIdOf(m.url);
       id.Some? && PostId(id.value)
       && m.url == Locator(id.value, m.stableKey) && m.sourceId == SourceId(h, id.value, m.stableKey)
  }

  /** The URL pattern is exact: a member is valid when one parent explains its locator and its id. */
  lemma ValidMemberHasOneParent(h: Digest.Hash, unsafe: Unsafe, m: Member)
    ensures ValidMember(h, unsafe, m) <==>
            && m.ordinal < MAX_ITEMS && ValidKind(m.kind)
            && ValidKey(unsafe, m.stableKey) && ValidKey(unsafe, m.selectorKey) && ValidKey(unsafe, m.mediaKey)
            && exists id :: PostId(id) && m.url == Locator(id, m.stableKey) && m.sourceId == SourceId(h, id, m.stableKey)
  {
    hide Locator, IdentityFrame;
    if id :| PostId(id) && m.url == Locator(id, m.stableKey) && m.sourceId == SourceId(h, id, m.stableKey) {
      PostIdOfLocator(id, m.stableKey);
      assert m.sourceId[|SOURCE_ID_PREFIX|..] == h(IdentityFrame(id, m.stableKey));
    }
  }

  /** `_validate_unique_member_keys`. */
  predicate KeysUnique(members: seq<Member>) {
    forall i, j :: 0 <= i < j < |members| ==>
      members[i].stableKey != members[j].stableKey && members[i].selectorKey != members[j].selectorKey
  }

  predicate InOrder(members: seq<Member>) {
    forall i :: 0 <= i < |members| ==> members[i].ordinal == i
  }

  /** One membership object, in the order the source writes its keys. */
  function MemberValue(m: Member): Value {
    Obj([Field("child_source_id", Str(m.sourceId)), Field("media_kind", Str(m.kind)),
         Field("selector_key", Str(m.selectorKey))])
  }

  function MembersValue(members: seq<Member>): Value {
    Arr(seq(|members|, i requires 0 <= i < |members| => MemberValue(members[i])))
  }

  /** `x_attachment_members_json`. */
  function MembersJson(members: seq<Member>): Result<string, GraphError> {
    if !(1 <= |members| <= MAX_ITEMS) then Err(CountOutside)
    else if !InOrder(members) then Err(OrderInvalid)
    else if exists i, j :: 0 <= i < j < |members| && members[i].stableKey == members[j].stableKey then Err(StableKeyRepeated)
    else if exists i, j :: 0 <= i < j < |members| && members[i].selectorKey == members[j].selectorKey then Err(SelectorRepeated)
    else Ok(Print(Canonical(MembersValue(members)), Compact, 0))
  }

  function SnapshotHash(h: Digest.Hash, members: seq<Member>): Result<string, GraphError> {
    match MembersJson(members)
    case Err(e) => Err(e)
    case Ok(text) => Ok(h(Utf8.Encode(text)))
  }

  /** `XAttachmentDiscovery.__post_init__` over validated members. */
  predicate ValidDiscovery(h: Digest.Hash, unsafe: Unsafe, d: Discovery) {
    && (forall i :: 0 <= i < |d.members| ==> ValidMember(h, unsafe, d.members[i]))
    && 1 <= |d.members| <= MAX_ITEMS && InOrder(d.members) && KeysUnique(d.members)
    && SnapshotHash(h, d.members) == Ok(d.snapshotHash)
  }

  // ------------------------------------------------------------ membership JSON

  lemma KeyNamesAscend()
    ensures Ordering.Less("child_source_id", "media_kind") && Ordering.Less("media_kind", "selector_key")
    ensures Ordering.Less("child_source_id", "selector_key")
  {
  }

  lemma MembersValueIsCanonical(members: seq<Member>)
    ensures IsCanonical(MembersValue(members))
  {
    KeyNamesAscend();
    forall i | 0 <= i < |members| ensures IsCanonical(MembersValue(members).items[i]) {
      var fields := MemberValue(members[i]).fields;
      assert fields[0].name == "child_source_id" && fields[1].name == "media_kind" && fields[2].name == "selector_key";
      assert Increasing(fields);
    }
  }

  /** The persisted membership text parses back to the members and prints to itself again. */
  lemma MembersJsonRoundTrip(members: seq<Member>)
    requires MembersJson(members).Ok?
    ensures var text := MembersJson(members).value;
            Loads(text) == Some(MembersValue(members)) && IsCanonicalText(text)
            && text == Print(MembersValue(members), Compact, 0)
  {
    hide Print, Loads;
    MembersValueIsCanonical(members);
    CanonicalStays(MembersValue(members));
    LoadsDumps(MembersValue(members), Compact);
  }

  /** What two snapshots must share: children, kinds and selectors, in order. */
  predicate SameMembership(a: seq<Member>, b: seq<Member>) {
    && |a| == |b|
    && forall i :: 0 <= i < |a| ==>
         a[i].sourceId == b[i].sourceId && a[i].kind == b[i].kind && a[i].selectorKey == b[i].selectorKey
  }

  lemma SameValueSameMembership(a: seq<Member>, b: seq<Member>)
    ensures MembersValue(a) == MembersValue(b) <==> SameMembership(a, b)
  {
    var x, y := MembersValue(a).items, MembersValue(b).items;
    if x == y {
      forall i | 0 <= i < |a|
        ensures a[i].sourceId == b[i].sourceId && a[i].kind == b[i].kind && a[i].selectorKey == b[i].selectorKey
      {
        assert x[i] == MemberValue(a[i]) && y[i] == MemberValue(b[i]);
        assert x[i].fields[0] == y[i].fields[0] && x[i].fields[1] == y[i].fields[1] && x[i].fields[2] == y[i].fields[2];
      }
    }
    if SameMembership(a, b) {
      assert x == y;
    }
  }

  /** Two discoveries share a snapshot hash exactly when their ordered memberships are equal. */
  lemma SnapshotHashIdentifiesMembership(h: Digest.Hash, unsafe: Unsafe, a: Discovery, b: Discovery)
    requires ValidDiscovery(h, unsafe, a) && ValidDiscovery(h, unsafe, b)
    requires Digest.CollisionFree(h, {Utf8.Encode(MembersJson(a.members).value), Utf8.Encode(MembersJson(b.members).value)})
    ensures a.snapshotHash == b.snapshotHash <==> SameMembership(a.members, b.members)
  {
    hide ValidMember, KeysUnique, InOrder, Loads, Print, IsCanonicalText, Canonical;
    MembersJsonRoundTrip(a.members);
    MembersJsonRoundTrip(b.members);
    SameValueSameMembership(a.members, b.members);
    var s, t := MembersJson(a.members).value, MembersJson(b.members).value;
    if a.snapshotHash == b.snapshotHash {
      assert Utf8.Encode(s) == Utf8.Encode(t);
      Utf8.EncodeInjective(s, t);
    }
  }

  // -------------------------------------------------------------------- builder

  function MemberOf(h: Digest.Hash, parent: string, ordinal: nat, item: ProbeItem): Member {
    Member(ordinal, SourceId(h, parent, item.stableKey), Locator(parent, item.stableKey),
           item.stableKey, item.selectorKey, item.mediaKey, item.kind)
  }

  function MembersOf(h: Digest.Hash, parent: string, items: seq<ProbeItem>): (r: seq<Member>)
    ensures |r| == |items|
  {
    seq(|items|, i requires 0 <= i < |items| => MemberOf(h, parent, i, items[i]))
  }

  function StableKeysBefore(items: seq<ProbeItem>, n: nat): set<string>
    requires n <= |items|
  {
    set k | 0 <= k < n :: items[k].stableKey
  }

  function SelectorsBefore(items: seq<ProbeItem>, n: nat): set<string>
    requires n <= |items|
  {
    set k | 0 <= k < n :: items[k].selectorKey
  }

  /** The first reason to refuse the k-th item, in the order the builder tests. */
  function Objection(unsafe: Unsafe, parent: string, parentUrl: string, items: seq<ProbeItem>, k: nat): Option<GraphError>
    requires k < |items|
  {
    if k >= MAX_ITEMS then Some(CountOutside)
    else if !ValidKey(unsafe, items[k].stableKey) || !ValidKey(unsafe, items[k].selectorKey) || !ValidKey(unsafe, items[k].mediaKey)
    then Some(KeyInvalid)
    else if items[k].stableKey in StableKeysBefore(items, k) then Some(StableKeyRepeated)
    else if items[k].selectorKey in SelectorsBefore(items, k) then Some(SelectorRepeated)
    else if parentUrl != ParentUrl(parent) then Some(ParentUrlInvalid)
    else if !ValidKind(items[k].kind) then Some(KindInvalid)
    else None
  }

  /** Everything the builder demands of its arguments, said at once. */
  predicate Buildable(unsafe: Unsafe, parent: string, parentUrl: string, items: seq<ProbeItem>) {
    && 1 <= |items| <= MAX_ITEMS && parentUrl == ParentUrl(parent)
    && (forall k :: 0 <= k < |items| ==>
          && ValidKey(unsafe, items[k].stableKey) && ValidKey(unsafe, items[k].selectorKey)
          && ValidKey(unsafe, items[k].mediaKey) && ValidKind(items[k].kind))
    && (forall i, j :: 0 <= i < j < |items| ==>
          items[i].stableKey != items[j].stableKey && items[i].selectorKey != items[j].selectorKey)
  }

  /** `build_x_attachment_discovery`. */
  method BuildDiscovery(h: Digest.Hash, unsafe: Unsafe, parent: string, parentUrl: string, items: seq<ProbeItem>)
    returns (r: Result<Discovery, GraphError>)
    requires PostId(parent)
    ensures r.Ok? <==> Buildable(unsafe, parent, parentUrl, items)
    ensures r.Ok? ==> r.value.members == MembersOf(h, parent, items)
                      && SnapshotHash(h, r.value.members) == Ok(r.value.snapshotHash)
    ensures r.Err? && items == [] ==> r.error == CountOutside
    ensures r.Err? && items != [] ==>
              exists k :: 0 <= k < |items| && Objection(unsafe, parent, parentUrl, items, k) == Some(r.error)
                          && forall j :: 0 <= j < k ==> Objection(unsafe, parent, parentUrl, items, j).None?
  {
    hide ValidKey, ValidKind, Buildable, MembersOf, MemberOf, ParentUrl, StableKeysBefore, SelectorsBefore, SnapshotHash;
    var members: seq<Member> := [];
    var stableKeys: set<string> := {};
    var selectors: set<string> := {};
    var ordinal := 0;
    KeysBeforeGrow(items, 0);
    while ordinal < |items|
      invariant 0 <= ordinal <= |items|
      invariant members == MembersOf(h, parent, items[..ordinal])
      invariant stableKeys == StableKeysBefore(items, ordinal) && selectors == SelectorsBefore(items, ordinal)
      invariant forall j :: 0 <= j < ordinal ==> Objection(unsafe, parent, parentUrl, items, j).None?
    {
      var item := items[ordinal];
      ghost var objection := Objection(unsafe, parent, parentUrl, items, ordinal);
      ObjectionRefuses(unsafe, parent, parentUrl, items, ordinal);
      if ordinal >= MAX_ITEMS {
        return Err(CountOutside);
      }
      if !ValidKey(unsafe, item.stableKey) || !ValidKey(unsafe, item.selectorKey) || !ValidKey(unsafe, item.mediaKey) {
        return Err(KeyInvalid);
      }
      if item.stableKey in stableKeys {
        return Err(StableKeyRepeated);
      }
      if item.selectorKey in selectors {
        return Err(SelectorRepeated);
      }
      KeysBeforeGrow(items, ordinal);
      stableKeys := stableKeys + {item.stableKey};
      selectors := selectors + {item.selectorKey};
      if parentUrl != ParentUrl(parent) {
        return Err(ParentUrlInvalid);
      }
      if !ValidKind(item.kind) {
        return Err(KindInvalid);
      }
      MembersGrow(h, parent, items, ordinal);
      members := members + [MemberOf(h, parent, ordinal, item)];
      ordinal := ordinal + 1;
    }
    assert items[..ordinal] == items;
    assert |members| == |items|;
    if members == [] {
      EmptyIsNotBuildable(unsafe, parent, parentUrl);
      return Err(CountOutside);
    }
    NoObjectionBuilds(unsafe, parent, parentUrl, items);
    BuiltMembersAreUnique(h, unsafe, parent, parentUrl, items);
    return Ok(Discovery(members, SnapshotHash(h, members).value));
  }

  lemma EmptyIsNotBuildable(unsafe: Unsafe, parent: string, parentUrl: string)
    ensures !Buildable(unsafe, parent, parentUrl, [])
  {
  }

  lemma KeysBeforeGrow(items: seq<ProbeItem>, n: nat)
    requires n <= |items|
    ensures n == 0 ==> StableKeysBefore(items, n) == {} && SelectorsBefore(items, n) == {}
    ensures n < |items| ==>
              && StableKeysBefore(items, n + 1) == StableKeysBefore(items, n) + {items[n].stableKey}
              && SelectorsBefore(items, n + 1) == SelectorsBefore(items, n) + {items[n].selectorKey}
  {
  }

  lemma MembersGrow(h: Digest.Hash, parent: string, items: seq<ProbeItem>, n: nat)
    requires n < |items|
    ensures MembersOf(h, parent, items[..n + 1]) == MembersOf(h, parent, items[..n]) + [MemberOf(h, parent, n, items[n])]
  {
  }

  lemma ObjectionRefuses(unsafe: Unsafe, parent: string, parentUrl: string, items: seq<ProbeItem>, k: nat)
    requires k < |items|
    ensures Objection(unsafe, parent, parentUrl, items, k).Some? ==> !Buildable(unsafe, parent, parentUrl, items)
  {
  }

  lemma NoObjectionBuilds(unsafe: Unsafe, parent: string, parentUrl: string, items: seq<ProbeItem>)
    requires items != []
    requires forall k :: 0 <= k < |items| ==> Objection(unsafe, parent, parentUrl, items, k).None?
    ensures Buildable(unsafe, parent, parentUrl, items)
  {
    hide ValidKey, ValidKind;
    assert Objection(unsafe, parent, parentUrl, items, |items| - 1).None?;
    forall i, j | 0 <= i < j < |items|
      ensures items[i].stableKey != items[j].stableKey && items[i].selectorKey != items[j].selectorKey
    {
      assert Objection(unsafe, parent, parentUrl, items, j).None?;
      assert items[i].stableKey in StableKeysBefore(items, j) && items[i].selectorKey in SelectorsBefore(items, j);
    }
    forall k | 0 <= k < |items|
      ensures ValidKey(unsafe, items[k].stableKey) && ValidKey(unsafe, items[k].selectorKey)
              && ValidKey(unsafe, items[k].mediaKey) && ValidKind(items[k].kind)
    {
      assert Objection(unsafe, parent, parentUrl, items, k).None?;
    }
  }

  lemma BuiltMembersAreUnique(h: Digest.Hash, unsafe: Unsafe, parent: string, parentUrl: string, items: seq<ProbeItem>)
    requires Buildable(unsafe, parent, parentUrl, items)
    ensures var members := MembersOf(h, parent, items);
            InOrder(members) && KeysUnique(members) && SnapshotHash(h, members).Ok?
  {
    var members := MembersOf(h, parent, items);
    assert forall i :: 0 <= i < |members| ==> members[i].stableKey == items[i].stableKey && members[i].selectorKey == items[i].selectorKey;
  }

  /** What the builder returns satisfies every validator of the two dataclasses. */
  lemma BuiltDiscoveryIsValid(h: Digest.Hash, unsafe: Unsafe, parent: string, parentUrl: string, items: seq<ProbeItem>, d: Discovery)
    requires PostId(parent) && Buildable(unsafe, parent, parentUrl, items)
    requires d.members == MembersOf(h, parent, items) && SnapshotHash(h, d.members) == Ok(d.snapshotHash)
    ensures ValidDiscovery(h, unsafe, d)
  {
    hide ValidKey, ValidKind, Locator, IdentityFrame, SnapshotHash, PostId;
    BuiltMembersAreUnique(h, unsafe, parent, parentUrl, items);
    forall i | 0 <= i < |d.members| ensures ValidMember(h, unsafe, d.members[i]) {
      var m := MemberOf(h, parent, i, items[i]);
      PostIdOfLocator(parent, items[i].stableKey);
      assert m.sourceId[|SOURCE_ID_PREFIX|..] == h(IdentityFrame(parent, items[i].stableKey));
      ValidMemberHasOneParent(h, unsafe, m);
    }
  }

  /**
   The validators admit nothing else: a valid discovery whose locators all name one parent is
   what the builder makes of some probe items.
   */
  lemma ValidDiscoveryWasBuilt(h: Digest.Hash, unsafe: Unsafe, parent: string, d: Discovery)
    requires ValidDiscovery(h, unsafe, d) && PostId(parent)
    requires forall i :: 0 <= i < |d.members| ==> PostIdOf(d.members[i].url) == Some(parent)
    ensures exists items :: Buildable(unsafe, parent, ParentUrl(parent), items) && d.members == MembersOf(h, parent, items)
  {
    hide ValidKey, ValidKind, Locator, SourceId, SnapshotHash, PostId, ParentUrl, PostIdOf;
    var items := seq(|d.members|, i requires 0 <= i < |d.members| =>
      ProbeItem(d.members[i].stableKey, d.members[i].selectorKey, d.members[i].mediaKey, d.members[i].kind));
    forall i | 0 <= i < |d.members| ensures d.members[i] == MemberOf(h, parent, i, items[i]) {
      assert ValidMember(h, unsafe, d.members[i]);
    }
    assert d.members == MembersOf(h, parent, items);
    assert Buildable(unsafe, parent, ParentUrl(parent), items);
  }
}
