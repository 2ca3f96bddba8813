/** The package digest and the release builder's version of it. */
module BuildIdentity {
  /*
   The worklist that lists the payload, and the length-framed stream it is hashed as.
   */

  import opened Common
  import Utf8
  import Digest
  import opened Ordering
  import opened Paths
  import opened FileTree

  datatype Item = Item(name: string, content: bytes)

  datatype IdentityError = SpecialOrLink | Unavailable | LengthOverflow

  // ------------------------------------------------------------------- inventory

  /** `path.suffix == ".pyc"` below a `__pycache__` part: bytecode generated from covered source. */
  predicate Generated(path: Path) {
    path != [] && "__pycache__" in path && EndsWith(Last(path), ".pyc") && |Last(path)| > 4
  }

  /** The payload files below a node, in some order. */
  function Gather(node: Node, path: Path): seq<Item>
    decreases node, 1
  {
    match node
    case File(content) => if Generated(path) then [] else [Item(Join(path), content)]
    case Dir(entries) => GatherAll(entries, path)
    case Special => []
  }

  function GatherAll(entries: seq<Entry>, path: Path): seq<Item>
    decreases entries, 0
  {
    if entries == [] then []
    else Gather(entries[0].node, path + [entries[0].name]) + GatherAll(entries[1..], path)
  }

  predicate Plain(node: Node) {
    match node
    case Special => false
    case Dir(entries) => forall i :: 0 <= i < |entries| ==> Plain(entries[i].node)
    case _ => true
  }

  function ByName(): (Item, Item) -> bool {
    (a: Item, b: Item) => AtMost(a.name, b.name)
  }

  /** `_payload_inventory` of a tree without links and special files. */
  function Inventory(root: Node): seq<Item> {
    Sorted(Gather(root, []), ByName())
  }

  /** A directory still to be scanned. */
  datatype Pending = Pending(entries: seq<Entry>, path: Path)

  function Weight(node: Node): nat {
    match node
    case Dir(entries) => 1 + Weights(entries)
    case _ => 1
  }

  function Weights(entries: seq<Entry>): nat {
    if entries == [] then 0 else Weight(entries[0].node) + Weights(entries[1..])
  }

  function PendingWeight(pending: seq<Pending>): nat {
    if pending == [] then 0 else PendingWeight(pending[..|pending| - 1]) + 1 + Weights(Last(pending).entries)
  }

  function PendingItems(pending: seq<Pending>): seq<Item> {
    if pending == [] then [] else PendingItems(pending[..|pending| - 1]) + GatherAll(Last(pending).entries, Last(pending).path)
  }

  predicate PendingPlain(pending: seq<Pending>) {
    forall i :: 0 <= i < |pending| ==> Plain(Dir(pending[i].entries))
  }

  /** The items already listed, those of directories still pending, and those of the entries left to scan. */
  ghost predicate Accounted(files: seq<Item>, pending: seq<Pending>, entries: seq<Entry>, path: Path, whole: seq<Item>) {
    multiset(files) + multiset(PendingItems(pending)) + multiset(GatherAll(entries, path)) == multiset(whole)
  }

  lemma PendingPushed(pending: seq<Pending>, d: Pending)
    ensures PendingItems(pending + [d]) == PendingItems(pending) + GatherAll(d.entries, d.path)
    ensures PendingWeight(pending + [d]) == PendingWeight(pending) + 1 + Weights(d.entries)
  {
    assert (pending + [d])[..|pending|] == pending;
  }

  lemma GatherFirst(entries: seq<Entry>, path: Path)
    requires entries != []
    ensures multiset(GatherAll(entries, path))
            == multiset(Gather(entries[0].node, path + [entries[0].name])) + multiset(GatherAll(entries[1..], path))
  {
    hide Gather;
  }

  lemma ScanStep(files: seq<Item>, pending: seq<Pending>, entries: seq<Entry>, path: Path, whole: seq<Item>)
    requires entries != [] && Accounted(files, pending, entries, path, whole)
    ensures var node, child := entries[0].node, path + [entries[0].name];
            && (node.Dir? ==> Accounted(files, pending + [Pending(node.entries, child)], entries[1..], path, whole))
            && (node.File? && Generated(child) ==> Accounted(files, pending, entries[1..], path, whole))
            && (node.File? && !Generated(child) ==>
                  Accounted(files + [Item(Join(child), node.content)], pending, entries[1..], path, whole))
  {
    hide Generated, Join, GatherAll, PendingItems;
    var node, child := entries[0].node, path + [entries[0].name];
    GatherFirst(entries, path);
    if node.Dir? {
      var d := Pending(node.entries, child);
      PendingPushed(pending, d);
      assert multiset(PendingItems(pending + [d])) == multiset(PendingItems(pending)) + multiset(GatherAll(node.entries, child));
    } else if node.File? && !Generated(child) {
      var item := Item(Join(child), node.content);
      assert multiset(files + [item]) == multiset(files) + multiset([item]);
    }
  }

  /** One directory: list its files, remember its subdirectories, refuse anything else. */
  method ScanDirectory(directory: Pending, files: seq<Item>, pending: seq<Pending>, ghost whole: seq<Item>)
    returns (r: Result<(seq<Item>, seq<Pending>), IdentityError>)
    requires Accounted(files, pending, directory.entries, directory.path, whole)
    ensures r.Err? ==> r.error == SpecialOrLink && !Plain(Dir(directory.entries))
    ensures r.Ok? ==> Accounted(r.value.0, r.value.1, [], [], whole)
    ensures r.Ok? ==> PendingWeight(r.value.1) <= PendingWeight(pending) + Weights(directory.entries)
    ensures r.Ok? ==> (PendingPlain(r.value.1) <==> PendingPlain(pending) && Plain(Dir(directory.entries)))
  {
    hide Accounted, Generated, Join;
    var found, more := files, pending;
    var entries := directory.entries;
    assert entries[0..] == entries;
    for k := 0 to |entries|
      invariant Accounted(found, more, entries[k..], directory.path, whole)
      invariant PendingWeight(more) + Weights(entries[k..]) <= PendingWeight(pending) + Weights(entries)
      invariant PendingPlain(more) <==> PendingPlain(pending) && forall i :: 0 <= i < k ==> Plain(entries[i].node)
    {
      var node, child := entries[k].node, directory.path + [entries[k].name];
      assert entries[k..][0] == entries[k] && entries[k..][1..] == entries[k + 1..];
      ScanStep(found, more, entries[k..], directory.path, whole);
      if node.Special? {
        return Err(SpecialOrLink);
      }
      if node.Dir? {
        PendingPushed(more, Pending(node.entries, child));
        PendingPlainPushed(more, Pending(node.entries, child));
        more := more + [Pending(node.entries, child)];
      } else if !Generated(child) {
        found := found + [Item(Join(child), node.content)];
      }
    }
    NothingLeft(found, more, directory.path, whole);
    assert entries[|entries|..] == [];
    return Ok((found, more));
  }

  lemma PendingPlainPushed(pending: seq<Pending>, d: Pending)
    ensures PendingPlain(pending + [d]) <==> PendingPlain(pending) && Plain(Dir(d.entries))
  {
    hide Plain;
    var all := pending + [d];
    if PendingPlain(all) {
      assert all[|pending|] == d;
      forall i | 0 <= i < |pending| ensures Plain(Dir(pending[i].entries)) {
        assert all[i] == pending[i];
      }
    }
  }

  lemma NothingLeft(files: seq<Item>, pending: seq<Pending>, path: Path, whole: seq<Item>)
    ensures Accounted(files, pending, [], path, whole) <==> Accounted(files, pending, [], [], whole)
  {
  }

  lemma Popped(files: seq<Item>, pending: seq<Pending>, whole: seq<Item>)
    requires pending != [] && Accounted(files, pending, [], [], whole)
    ensures var d := Last(pending); Accounted(files, pending[..|pending| - 1], d.entries, d.path, whole)
  {
    hide Gather;
    var front, d := pending[..|pending| - 1], Last(pending);
    assert multiset(PendingItems(pending)) == multiset(PendingItems(front)) + multiset(GatherAll(d.entries, d.path));
  }

  lemma PoppedWeight(pending: seq<Pending>)
    requires pending != []
    ensures PendingWeight(pending) == PendingWeight(pending[..|pending| - 1]) + 1 + Weights(Last(pending).entries)
    ensures PendingPlain(pending) <==> PendingPlain(pending[..|pending| - 1]) && Plain(Dir(Last(pending).entries))
  {
    hide Plain;
    assert pending == pending[..|pending| - 1] + [Last(pending)];
    PendingPlainPushed(pending[..|pending| - 1], Last(pending));
  }

  lemma ScanBegins(entries: seq<Entry>)
    ensures Accounted([], [Pending(entries, [])], [], [], Gather(Dir(entries), []))
  {
    var d := Pending(entries, []);
    assert [d][..0] == [] && PendingItems([d]) == [] + GatherAll(entries, []);
  }

  lemma ScanEnds(files: seq<Item>, whole: seq<Item>)
    requires Accounted(files, [], [], [], whole)
    ensures multiset(files) == multiset(whole)
  {
  }

  /** `_payload_inventory`: a stack of directories, then one sort by relative name. */
  method PayloadInventory(root: Node) returns (r: Result<seq<Item>, IdentityError>)
    requires root.Dir? && WellFormed(root)
    ensures r == if Plain(root) then Ok(Inventory(root)) else Err(SpecialOrLink)
  {
    hide Accounted, Plain, WellFormed, PendingWeight, PendingPlain, Gather;
    var files: seq<Item> := [];
    var pending := [Pending(root.entries, [])];
    ghost var whole := Gather(root, []);
    ScanBegins(root.entries);
    PlainBegins(root.entries);
    while pending != []
      invariant Accounted(files, pending, [], [], whole)
      invariant PendingPlain(pending) <==> Plain(root)
      decreases PendingWeight(pending)
    {
      Popped(files, pending, whole);
      PoppedWeight(pending);
      var directory := Last(pending);
      var scanned := ScanDirectory(directory, files, pending[..|pending| - 1], whole);
      if scanned.Err? {
        return Err(SpecialOrLink);
      }
      files, pending := scanned.value.0, scanned.value.1;
    }
    ScanEnds(files, whole);
    PlainEnds();
    NamesStrict(root);
    NameOrder();
    SortForgetsOrder(whole, files, ByName());
    return Ok(Sorted(files, ByName()));
  }

  lemma PlainBegins(entries: seq<Entry>)
    ensures PendingPlain([Pending(entries, [])]) <==> Plain(Dir(entries))
  {
    assert [Pending(entries, [])][0].entries == entries;
  }

  lemma PlainEnds()
    ensures PendingPlain([])
  {
  }

  lemma NameOrder()
    ensures IsOrder(ByName())
  {
    forall a: Item, b: Item ensures AtMost(a.name, b.name) || AtMost(b.name, a.name) {
      LessTotal(a.name, b.name);
    }
    forall a: Item, b: Item, c: Item | AtMost(a.name, b.name) && AtMost(b.name, c.name) ensures AtMost(a.name, c.name) {
      AtMostTransitive(a.name, b.name, c.name);
    }
  }

  // ------------------------------------------------------- what the inventory holds

  ghost predicate NamesDistinct(items: seq<Item>) {
    forall i, j :: 0 <= i < j < |items| ==> items[i].name != items[j].name
  }

  /** Everything gathered below a path is a kept file, found by following the rest of its path. */
  lemma {:induction false} GatherFinds(node: Node, path: Path, item: Item) returns (rest: Path)
    requires WellFormed(node) && item in Gather(node, path)
    ensures Lookup(node, rest) == Some(item.content) && !Generated(path + rest) && item.name == Join(path + rest) && Clean(rest)
    decreases node, 1
  {
    hide Generated, Join, Name;
    if node.File? {
      rest := [];
      assert path + rest == path;
    } else {
      rest := GatherAllFinds(node.entries, path, item);
    }
  }

  lemma {:induction false} GatherAllFinds(entries: seq<Entry>, path: Path, item: Item) returns (rest: Path)
    requires WellFormed(Dir(entries)) && item in GatherAll(entries, path)
    ensures rest != [] && Lookup(Dir(entries), rest) == Some(item.content)
    ensures !Generated(path + rest) && item.name == Join(path + rest) && Clean(rest)
    decreases entries, 0
  {
    hide Generated, Join, Name;
    if item in Gather(entries[0].node, path + [entries[0].name]) {
      var deeper := GatherFinds(entries[0].node, path + [entries[0].name], item);
      rest := [entries[0].name] + deeper;
      assert path + rest == path + [entries[0].name] + deeper && rest[1..] == deeper;
    } else {
      rest := GatherAllFinds(entries[1..], path, item);
      FoundIsEntry(entries[1..], rest[0]);
      var i :| 0 <= i < |entries[1..]| && entries[1..][i].name == rest[0];
      assert entries[i + 1].name == rest[0];
    }
  }

  /** Every kept file is gathered. */
  lemma {:induction false} KeptIsGathered(node: Node, path: Path, rest: Path)
    requires Lookup(node, rest).Some? && !Generated(path + rest)
    ensures Item(Join(path + rest), Lookup(node, rest).value) in Gather(node, path)
    decreases node, 1
  {
    hide Generated, Join;
    if rest == [] {
      assert path + rest == path;
    } else {
      var found := Find(node.entries, rest[0]).value;
      var k :| 0 <= k < |node.entries| && node.entries[k] == Entry(rest[0], found);
      assert path + [rest[0]] + rest[1..] == path + rest;
      KeptIsGathered(node.entries[k].node, path + [rest[0]], rest[1..]);
      GatheredAt(node.entries, path, k, Item(Join(path + rest), Lookup(node, rest).value));
    }
  }

  lemma {:induction false} GatheredAt(entries: seq<Entry>, path: Path, k: nat, item: Item)
    requires k < |entries| && item in Gather(entries[k].node, path + [entries[k].name])
    ensures item in GatherAll(entries, path)
  {
    hide Gather;
    if k > 0 { GatheredAt(entries[1..], path, k - 1, item); }
  }

  lemma {:induction false} GatherDistinct(node: Node, path: Path)
    requires WellFormed(node) && Clean(path)
    ensures NamesDistinct(Gather(node, path))
    decreases node, 1
  {
    if node.Dir? { GatherAllDistinct(node.entries, path); }
  }

  lemma {:induction false} GatherAllDistinct(entries: seq<Entry>, path: Path)
    requires WellFormed(Dir(entries)) && Clean(path)
    ensures NamesDistinct(GatherAll(entries, path))
    decreases entries, 0
  {
    hide Generated, Join, Name, Lookup;
    if entries != [] {
      var child := path + [entries[0].name];
      var first, others := Gather(entries[0].node, child), GatherAll(entries[1..], path);
      GatherDistinct(entries[0].node, child);
      GatherAllDistinct(entries[1..], path);
      forall a, b | a in first && b in others ensures a.name != b.name {
        GatheredApart(entries, path, a, b);
      }
      DistinctTogether(first, others);
    }
  }

  lemma GatheredApart(entries: seq<Entry>, path: Path, a: Item, b: Item)
    requires WellFormed(Dir(entries)) && Clean(path) && entries != []
    requires a in Gather(entries[0].node, path + [entries[0].name]) && b in GatherAll(entries[1..], path)
    ensures a.name != b.name
  {
    hide Generated, Join;
    var child := path + [entries[0].name];
    var p := GatherFinds(entries[0].node, child, a);
    var q := GatherAllFinds(entries[1..], path, b);
    FoundIsEntry(entries[1..], q[0]);
    var i :| 0 <= i < |entries[1..]| && entries[1..][i].name == q[0];
    assert entries[i + 1].name == q[0] && q[0] != entries[0].name;
    assert (child + p)[|path|] == entries[0].name && (path + q)[|path|] == q[0];
    if a.name == b.name {
      JoinInjective(child + p, path + q);
    }
  }

  lemma DistinctTogether(a: seq<Item>, b: seq<Item>)
    requires NamesDistinct(a) && NamesDistinct(b)
    requires forall x, y :: x in a && y in b ==> x.name != y.name
    ensures NamesDistinct(a + b)
  {
    var all := a + b;
    forall i, j | 0 <= i < j < |all| ensures all[i].name != all[j].name {
      if i < |a| <= j {
        assert all[i] in a && all[j] in b;
      }
    }
  }

  lemma NamesStrict(root: Node)
    requires WellFormed(root)
    ensures StrictOn(Sorted(Gather(root, []), ByName()), ByName())
  {
    hide WellFormed, Gather;
    var items := Gather(root, []);
    GatherDistinct(root, []);
    DistinctIsStrict(items, Sorted(items, ByName()));
  }

  lemma DistinctIsStrict(items: seq<Item>, sorted: seq<Item>)
    requires NamesDistinct(items) && multiset(sorted) == multiset(items)
    ensures StrictOn(sorted, ByName())
  {
    hide Less;
    var same := (x: Item, y: Item) => x.name == y.name;
    ApartPermuted(items, sorted, same);
    forall i, j | 0 <= i < |sorted| && 0 <= j < |sorted| && i != j
      ensures !(AtMost(sorted[i].name, sorted[j].name) && AtMost(sorted[j].name, sorted[i].name))
    {
      assert !same(sorted[if i < j then i else j], sorted[if i < j then j else i]);
      LessTotal(sorted[i].name, sorted[j].name);
    }
  }

  lemma InventoryHolds(root: Node, path: Path, content: bytes)
    requires root.Dir? && WellFormed(root) && path != [] && Clean(path)
    ensures Item(Join(path), content) in Inventory(root) <==> Lookup(root, path) == Some(content) && !Generated(path)
    ensures forall i, j :: 0 <= i < j < |Inventory(root)| ==> Less(Inventory(root)[i].name, Inventory(root)[j].name)
  {
    hide Generated, Join, Gather, WellFormed, Lookup;
    var item, items := Item(Join(path), content), Gather(root, []);
    assert item in Inventory(root) <==> item in items by {
      assert item in multiset(Inventory(root)) <==> item in multiset(items);
    }
    if item in items {
      var rest := GatherFinds(root, [], item);
      assert [] + rest == rest;
      if rest == [] { assert root.Dir?; RootIsNoFile(root); }
      JoinInjective(rest, path);
    }
    if Lookup(root, path) == Some(content) && !Generated(path) {
      assert [] + path == path;
      KeptIsGathered(root, [], path);
    }
    NamesStrict(root);
    NameOrder();
    SortedIsSorted(items, ByName());
    forall i, j | 0 <= i < j < |Inventory(root)| ensures Less(Inventory(root)[i].name, Inventory(root)[j].name) {
      assert ByName()(Inventory(root)[i], Inventory(root)[j]);
      assert !(ByName()(Inventory(root)[i], Inventory(root)[j]) && ByName()(Inventory(root)[j], Inventory(root)[i]));
    }
  }

  ghost predicate SpecialAt(node: Node, path: Path) {
    NodeAt(node, path) == Some(Special)
  }

  lemma {:induction false} PlainHasNone(node: Node, path: Path)
    requires Plain(node)
    ensures !SpecialAt(node, path)
    decreases |path|
  {
    if path != [] && node.Dir? && Find(node.entries, path[0]).Some? {
      var k :| 0 <= k < |node.entries| && node.entries[k] == Entry(path[0], Find(node.entries, path[0]).value);
      PlainHasNone(node.entries[k].node, path[1..]);
    }
  }

  lemma {:induction false} NotPlainHasOne(node: Node) returns (path: Path)
    requires WellFormed(node) && !Plain(node)
    ensures SpecialAt(node, path)
  {
    hide WellFormed;
    path := [];
    if node.Dir? {
      var k :| 0 <= k < |node.entries| && !Plain(node.entries[k].node);
      EntryWellFormed(node.entries, k);
      FindsEntry(node.entries, k);
      var rest := NotPlainHasOne(node.entries[k].node);
      path := [node.entries[k].name] + rest;
      assert path[1..] == rest;
    }
  }

  /** A tree is refused exactly when something special lies at some path of it. */
  lemma PlainExactly(node: Node)
    requires WellFormed(node)
    ensures Plain(node) <==> forall path :: !SpecialAt(node, path)
  {
    hide WellFormed, SpecialAt;
    if Plain(node) {
      forall path ensures !SpecialAt(node, path) { PlainHasNone(node, path); }
    } else {
      var path := NotPlainHasOne(node);
    }
  }

  lemma EntryWellFormed(entries: seq<Entry>, k: nat)
    requires WellFormed(Dir(entries)) && k < |entries|
    ensures WellFormed(entries[k].node)
  {
  }

  /** A `.pyc` file, with something before the suffix, anywhere below a `__pycache__` directory. */
  ghost predicate Bytecode(path: Path) {
    && (exists k :: 0 <= k < |path| && path[k] == "__pycache__")
    && exists stem :: stem != "" && path[|path| - 1] == stem + ".pyc"
  }

  /** What the inventory leaves out: bytecode, and nothing else. */
  lemma GeneratedIsBytecode(path: Path)
    ensures Generated(path) <==> Bytecode(path)
  {
    if Generated(path) {
      var name := Last(path);
      assert name == name[..|name| - 4] + ".pyc" && name[..|name| - 4] != "";
    }
    if Bytecode(path) {
      var stem :| stem != "" && path[|path| - 1] == stem + ".pyc";
      assert Last(path)[|Last(path)| - 4..] == ".pyc";
    }
  }

  /** The inventory is exactly the files other than bytecode, once each, by name in ascending order. */
  lemma InventoryIsExact(root: Node, path: Path, content: bytes)
    requires root.Dir? && WellFormed(root) && path != [] && Clean(path)
    ensures Item(Join(path), content) in Inventory(root) <==> Lookup(root, path) == Some(content) && !Bytecode(path)
    ensures forall i, j :: 0 <= i < j < |Inventory(root)| ==> Less(Inventory(root)[i].name, Inventory(root)[j].name)
  {
    hide Generated, Bytecode, Inventory, WellFormed, Lookup;
    GeneratedIsBytecode(path);
    InventoryHolds(root, path, content);
  }

  lemma RootIsNoFile(root: Node)
    requires root.Dir?
    ensures Lookup(root, []).None?
  {
  }

  // ---------------------------------------------------- independence of the order

  lemma {:induction false} DistinctHoldsOnce(items: seq<Item>, x: Item)
    requires NamesDistinct(items)
    ensures multiset(items)[x] == if x in items then 1 else 0
  {
    var same := (a: Item, b: Item) => a.name == b.name;
    ApartHoldsOnce(items, x, same);
    assert x in items <==> x in multiset(items);
  }

  lemma SameItemsSameMultiset(a: seq<Item>, b: seq<Item>)
    requires NamesDistinct(a) && NamesDistinct(b) && forall x :: x in a <==> x in b
    ensures multiset(a) == multiset(b)
  {
    forall x ensures multiset(a)[x] == multiset(b)[x] {
      DistinctHoldsOnce(a, x);
      DistinctHoldsOnce(b, x);
    }
  }

  /** Trees that hold the same files have the same inventory, however their directories enumerate. */
  lemma InventoryForgetsEnumeration(a: Node, b: Node)
    requires a.Dir? && b.Dir? && WellFormed(a) && WellFormed(b)
    requires forall path :: Lookup(a, path) == Lookup(b, path)
    ensures Inventory(a) == Inventory(b)
  {
    hide WellFormed, Gather, Generated, Join, Lookup;
    var x, y := Gather(a, []), Gather(b, []);
    forall item ensures item in x <==> item in y {
      SameGathered(a, b, item);
      SameGathered(b, a, item);
    }
    GatherDistinct(a, []);
    GatherDistinct(b, []);
    SameItemsSameMultiset(x, y);
    NameOrder();
    NamesStrict(a);
    SortForgetsOrder(x, y, ByName());
  }

  lemma SameGathered(a: Node, b: Node, item: Item)
    requires WellFormed(a) && forall path :: Lookup(a, path) == Lookup(b, path)
    ensures item in Gather(a, []) ==> item in Gather(b, [])
  {
    hide WellFormed, Gather, Generated, Join, Lookup;
    if item in Gather(a, []) {
      var rest := GatherFinds(a, [], item);
      KeptIsGathered(b, [], rest);
    }
  }

  // ----------------------------------------------------------------- framed stream

  const LIMIT: nat := 0x1_0000_0000_0000_0000

  /** `n.to_bytes(8, "big")`. */
  function BigEndian(n: nat, width: nat): (r: bytes)
    ensures |r| == width
  {
    if width == 0 then [] else BigEndian(n / 256, width - 1) + [n % 256]
  }

  function Number(b: bytes): nat {
    if b == [] then 0 else Number(b[..|b| - 1]) * 256 + Last(b)
  }

  function Power(width: nat): nat {
    if width == 0 then 1 else Power(width - 1) * 256
  }

  lemma {:induction false} NumberOfBigEndian(n: nat, width: nat)
    requires n < Power(width)
    ensures Number(BigEndian(n, width)) == n
  {
    if width > 0 {
      NumberOfBigEndian(n / 256, width - 1);
      var b := BigEndian(n, width);
      assert b[..|b| - 1] == BigEndian(n / 256, width - 1);
    }
  }

  lemma LimitIsPower()
    ensures Power(8) == LIMIT
  {
    assert Power(1) == 0x100;
    assert Power(2) == 0x1_0000;
    assert Power(3) == 0x100_0000;
    assert Power(4) == 0x1_0000_0000;
    assert Power(5) == 0x100_0000_0000;
    assert Power(6) == 0x1_0000_0000_0000;
    assert Power(7) == 0x100_0000_0000_0000;
  }

  predicate InRange(item: Item) {
    |Utf8.Encode(item.name)| < LIMIT && |item.content| < LIMIT
  }

  function Framed(b: bytes): bytes {
    BigEndian(|b|, 8) + b
  }

  function Frame(item: Item): bytes {
    Framed(Utf8.Encode(item.name)) + Framed(item.content)
  }

  function Stream(items: seq<Item>): bytes {
    if items == [] then [] else Frame(items[0]) + Stream(items[1..])
  }

  /** A length-framed field can be read off the front of any stream. */
  lemma FramedIsPrefixFree(a: bytes, rest: bytes, b: bytes, rest': bytes)
    requires |a| < LIMIT && |b| < LIMIT && Framed(a) + rest == Framed(b) + rest'
    ensures a == b && rest == rest'
  {
    LimitIsPower();
    hide Power, BigEndian, Number;
    NumberOfBigEndian(|a|, 8);
    NumberOfBigEndian(|b|, 8);
    var t := Framed(a) + rest;
    assert t[..8] == BigEndian(|a|, 8) && t[..8] == BigEndian(|b|, 8);
    assert |a| == |b|;
    assert a == t[8..8 + |a|] && b == t[8..8 + |a|];
    assert rest == t[8 + |a|..] && rest' == t[8 + |a|..];
  }

  /** The stream determines the names and the contents, in order. */
  lemma {:induction false} StreamInjective(a: seq<Item>, b: seq<Item>)
    requires (forall x :: x in a ==> InRange(x)) && (forall x :: x in b ==> InRange(x))
    requires Stream(a) == Stream(b)
    ensures a == b
  {
    hide Framed, InRange;
    if a == [] || b == [] {
      StreamNotEmpty(a);
      StreamNotEmpty(b);
    } else {
      FrameSplits(a[0], Stream(a[1..]), b[0], Stream(b[1..]));
      StreamInjective(a[1..], b[1..]);
      assert a == [a[0]] + a[1..] && b == [b[0]] + b[1..];
    }
  }

  lemma StreamNotEmpty(items: seq<Item>)
    ensures items != [] ==> Stream(items) != []
  {
  }

  lemma FrameSplits(a: Item, rest: bytes, b: Item, rest': bytes)
    requires InRange(a) && InRange(b) && Frame(a) + rest == Frame(b) + rest'
    ensures a == b && rest == rest'
  {
    hide Framed;
    var x, y := Utf8.Encode(a.name), Utf8.Encode(b.name);
    assert Frame(a) + rest == Framed(x) + (Framed(a.content) + rest);
    assert Frame(b) + rest' == Framed(y) + (Framed(b.content) + rest');
    FramedIsPrefixFree(x, Framed(a.content) + rest, y, Framed(b.content) + rest');
    FramedIsPrefixFree(a.content, rest, b.content, rest');
    Utf8.EncodeInjective(a.name, b.name);
  }

  lemma {:induction false} StreamAppend(items: seq<Item>, item: Item)
    ensures Stream(items + [item]) == Stream(items) + Frame(item)
  {
    hide Frame;
    if items == [] {
      assert items + [item] == [item] && [item][1..] == [];
    } else {
      assert (items + [item])[1..] == items[1..] + [item];
      StreamAppend(items[1..], item);
      assert Frame(items[0]) + (Stream(items[1..]) + Frame(item)) == (Frame(items[0]) + Stream(items[1..])) + Frame(item);
    }
  }

  lemma StreamNext(items: seq<Item>, k: nat)
    requires k < |items|
    ensures Stream(items[..k + 1]) == Stream(items[..k]) + Frame(items[k])
  {
    hide Frame, Stream;
    assert items[..k + 1] == items[..k] + [items[k]];
    StreamAppend(items[..k], items[k]);
  }

  lemma AllAreInRange(items: seq<Item>)
    requires forall i :: 0 <= i < |items| ==> InRange(items[i])
    ensures items[..|items|] == items && forall x :: x in items ==> InRange(x)
  {
    hide InRange;
    assert items[..|items|] == items;
  }

  // ------------------------------------------------------------------ both digests

  /** The four `digest.update` calls of one file. */
  method Feed(stream: bytes, item: Item) returns (next: bytes)
    ensures next == stream + Frame(item)
  {
    hide Framed, BigEndian;
    FrameInTwo(stream, item);
    next := stream + Framed(Utf8.Encode(item.name));
    next := next + Framed(item.content);
  }

  /** The digest loop: each file's framed name and framed content, in inventory order. */
  method DigestItems(h: Digest.Hash, items: seq<Item>) returns (r: Result<string, IdentityError>)
    ensures r == if forall x :: x in items ==> InRange(x) then Ok(h(Stream(items))) else Err(LengthOverflow)
  {
    hide InRange, Framed, Frame, Stream;
    var stream: bytes := [];
    StreamOfNothing();
    for k := 0 to |items|
      invariant stream == Stream(items[..k])
      invariant forall i :: 0 <= i < k ==> InRange(items[i])
    {
      assert items[..k + 1] == items[..k] + [items[k]];
      if !InRange(items[k]) {
        return Err(LengthOverflow);
      }
      StreamAppend(items[..k], items[k]);
      stream := Feed(stream, items[k]);
    }
    assert items[..|items|] == items;
    return Ok(h(stream));
  }

  /** `package_payload_sha256` of a package that nobody changes meanwhile. */
  method PackagePayloadDigest(h: Digest.Hash, root: Node) returns (r: Result<string, IdentityError>)
    requires root.Dir? && WellFormed(root)
    ensures r == if !Plain(root) then Err(SpecialOrLink)
                 else if Inventory(root) == [] then Err(Unavailable)
                 else if forall x :: x in Inventory(root) ==> InRange(x) then Ok(h(Stream(Inventory(root))))
                 else Err(LengthOverflow)
  {
    hide Plain, WellFormed, Inventory, InRange, Stream;
    var inventory := PayloadInventory(root);
    if inventory.Err? {
      return Err(inventory.error);
    }
    if inventory.value == [] {
      return Err(Unavailable);
    }
    r := DigestItems(h, inventory.value);
  }

  /** Two packages share a digest exactly when they hold the same kept files. */
  lemma DigestIdentifiesPackage(h: Digest.Hash, a: Node, b: Node)
    requires a.Dir? && b.Dir? && WellFormed(a) && WellFormed(b)
    requires (forall x :: x in Inventory(a) ==> InRange(x)) && (forall x :: x in Inventory(b) ==> InRange(x))
    requires Digest.CollisionFree(h, {Stream(Inventory(a)), Stream(Inventory(b))})
    ensures h(Stream(Inventory(a))) == h(Stream(Inventory(b)))
            <==> forall path, content :: path != [] && Clean(path) && !Generated(path) ==>
                   (Lookup(a, path) == Some(content) <==> Lookup(b, path) == Some(content))
  {
    hide WellFormed, Inventory, Stream, InRange, Generated, Lookup, Clean;
    if h(Stream(Inventory(a))) == h(Stream(Inventory(b))) {
      StreamInjective(Inventory(a), Inventory(b));
      forall path, content | path != [] && Clean(path) && !Generated(path)
        ensures Lookup(a, path) == Some(content) <==> Lookup(b, path) == Some(content)
      {
        InventoryHolds(a, path, content);
        InventoryHolds(b, path, content);
      }
    }
    if forall path, content :: path != [] && Clean(path) && !Generated(path) ==>
         (Lookup(a, path) == Some(content) <==> Lookup(b, path) == Some(content))
    {
      SameKeptSameInventory(a, b);
    }
  }

  lemma SameKeptSameInventory(a: Node, b: Node)
    requires a.Dir? && b.Dir? && WellFormed(a) && WellFormed(b)
    requires forall path, content :: path != [] && Clean(path) && !Generated(path) ==>
               (Lookup(a, path) == Some(content) <==> Lookup(b, path) == Some(content))
    ensures Inventory(a) == Inventory(b)
  {
    hide WellFormed, Gather, Generated, Join, Lookup, Clean;
    var x, y := Gather(a, []), Gather(b, []);
    forall item ensures item in x <==> item in y {
      KeptGathered(a, b, item);
      KeptGathered(b, a, item);
    }
    EmptyIsClean();
    GatherDistinct(a, []);
    GatherDistinct(b, []);
    SameItemsSameMultiset(x, y);
    NameOrder();
    NamesStrict(a);
    SortForgetsOrder(x, y, ByName());
  }

  lemma EmptyIsClean()
    ensures Clean([])
  {
  }

  lemma KeptGathered(a: Node, b: Node, item: Item)
    requires a.Dir? && WellFormed(a)
    requires forall path, content :: path != [] && Clean(path) && !Generated(path) ==>
               (Lookup(a, path) == Some(content) <==> Lookup(b, path) == Some(content))
    ensures item in Gather(a, []) ==> item in Gather(b, [])
  {
    hide WellFormed, Gather, Generated, Join, Lookup, Clean;
    if item in Gather(a, []) {
      var rest := GatherFinds(a, [], item);
      assert [] + rest == rest;
      if rest == [] { RootIsNoFile(a); }
      KeptIsGathered(b, [], rest);
    }
  }

  // -------------------------------------------------------------- release builder

  const PACKAGE_PREFIX := "src/video_download_control/"

  /** The release's file table, as the names and contents it lists. */
  function PackageNames(files: seq<Item>): seq<Item> {
    if files == [] then []
    else (if StartsWith(files[0].name, PACKAGE_PREFIX) then [files[0]] else []) + PackageNames(files[1..])
  }

  function Relative(item: Item): Item {
    if StartsWith(item.name, PACKAGE_PREFIX) then Item(item.name[|PACKAGE_PREFIX|..], item.content) else item
  }

  /** The release frames what lies below `src/video_download_control/`, by the rest of its name. */
  lemma RelativeExactly(item: Item, rest: string)
    requires item.name == "src/video_download_control/" + rest
    ensures StartsWith(item.name, PACKAGE_PREFIX) && Relative(item) == Item(rest, item.content)
  {
    assert item.name[..|PACKAGE_PREFIX|] == PACKAGE_PREFIX && item.name[|PACKAGE_PREFIX|..] == rest;
  }

  function RelativeAll(items: seq<Item>): (r: seq<Item>)
    ensures |r| == |items|
  {
    seq(|items|, i requires 0 <= i < |items| => Relative(items[i]))
  }

  /** What `source_contract` frames: the package's files sorted by full name, by their relative names. */
  function ReleaseItems(files: seq<Item>): seq<Item> {
    RelativeAll(Sorted(PackageNames(files), ByName()))
  }

  method ReleaseDigest(h: Digest.Hash, files: seq<Item>) returns (r: Result<string, IdentityError>)
    ensures r == if forall x :: x in ReleaseItems(files) ==> InRange(x) then Ok(h(Stream(ReleaseItems(files)))) else Err(LengthOverflow)
  {
    hide InRange, Framed, Relative, PACKAGE_PREFIX, ReleaseItems, Sorted, PackageNames, RelativeAll, Stream, Frame, Less;
    var names := Sorted(PackageNames(files), ByName());
    ghost var items := ReleaseItems(files);
    ReleaseItemsAt(files);
    StreamOfNothing();
    var stream: bytes := [];
    for k := 0 to |names|
      invariant stream == Stream(items[..k])
      invariant forall i :: 0 <= i < k ==> InRange(items[i])
    {
      var item := Relative(names[k]);
      assert item == items[k];
      if !InRange(item) {
        assert item in items;
        return Err(LengthOverflow);
      }
      StreamNext(items, k);
      stream := Feed(stream, item);
    }
    AllAreInRange(items);
    return Ok(h(stream));
  }

  lemma ReleaseItemsAt(files: seq<Item>)
    ensures var names, items := Sorted(PackageNames(files), ByName()), ReleaseItems(files);
            |items| == |names| && forall k :: 0 <= k < |names| ==> items[k] == Relative(names[k])
  {
    hide Sorted, PackageNames, Relative;
  }

  lemma StreamOfNothing()
    ensures Stream([]) == []
  {
  }

  lemma FrameInTwo(stream: bytes, item: Item)
    ensures stream + Framed(Utf8.Encode(item.name)) + Framed(item.content) == stream + Frame(item)
  {
    hide Framed;
  }

  /** The release lists the package: the same kept files, under the package's prefix. */
  ghost predicate Lists(files: seq<Item>, root: Node) {
    && NamesDistinct(files)
    && (forall x :: x in files && StartsWith(x.name, PACKAGE_PREFIX) ==>
          exists path :: path != [] && Clean(path) && x.name == PACKAGE_PREFIX + Join(path))
    && forall path, content :: path != [] && Clean(path) ==>
         (Item(PACKAGE_PREFIX + Join(path), content) in files <==> Lookup(root, path) == Some(content) && !Generated(path))
  }

  lemma {:induction false} PackageNamesAre(files: seq<Item>)
    ensures forall x :: x in PackageNames(files) <==> x in files && StartsWith(x.name, PACKAGE_PREFIX)
    ensures NamesDistinct(files) ==> NamesDistinct(PackageNames(files))
  {
    hide StartsWith, PACKAGE_PREFIX;
    if files != [] {
      PackageNamesAre(files[1..]);
      assert files == [files[0]] + files[1..];
      if NamesDistinct(files) {
        var first := if StartsWith(files[0].name, PACKAGE_PREFIX) then [files[0]] else [];
        forall a, b | a in first && b in PackageNames(files[1..]) ensures a.name != b.name {
          var j :| 0 <= j < |files[1..]| && files[1..][j] == b;
          assert files[j + 1] == b;
        }
        DistinctTogether(first, PackageNames(files[1..]));
      }
    }
  }

  lemma RelativeOf(item: Item, rest: string)
    requires item.name == PACKAGE_PREFIX + rest
    ensures StartsWith(item.name, PACKAGE_PREFIX) && Relative(item) == Item(rest, item.content)
  {
  }

  lemma StartsIsPrefixed(item: Item)
    requires StartsWith(item.name, PACKAGE_PREFIX)
    ensures item.name == PACKAGE_PREFIX + Relative(item).name && Relative(item).content == item.content
  {
  }

  /** Stripping the common prefix keeps the order and the distinctness. */
  lemma StrippedStaysSorted(names: seq<Item>)
    requires SortedBy(names, ByName()) && NamesDistinct(names)
    requires forall x :: x in names ==> StartsWith(x.name, PACKAGE_PREFIX)
    ensures SortedBy(RelativeAll(names), ByName()) && NamesDistinct(RelativeAll(names))
  {
    hide StartsWith, PACKAGE_PREFIX, Less, Relative;
    var items := RelativeAll(names);
    forall i, j | 0 <= i < j < |items| ensures AtMost(items[i].name, items[j].name) && items[i].name != items[j].name {
      assert names[i] in names && names[j] in names;
      StartsIsPrefixed(names[i]);
      StartsIsPrefixed(names[j]);
      LessBelowPrefix(PACKAGE_PREFIX, items[j].name, items[i].name);
      assert ByName()(names[i], names[j]);
    }
  }

  lemma StrippedMembers(files: seq<Item>, root: Node, item: Item)
    requires root.Dir? && WellFormed(root) && Lists(files, root)
    ensures (exists x :: x in files && StartsWith(x.name, PACKAGE_PREFIX) && Relative(x) == item) <==> item in Gather(root, [])
  {
    hide StartsWith, PACKAGE_PREFIX, Gather, Generated, Join, WellFormed, Lookup, Relative, Clean;
    if x :| x in files && StartsWith(x.name, PACKAGE_PREFIX) && Relative(x) == item {
      var path :| path != [] && Clean(path) && x.name == PACKAGE_PREFIX + Join(path);
      RelativeOf(x, Join(path));
      assert Item(PACKAGE_PREFIX + Join(path), x.content) in files;
      assert Lookup(root, path) == Some(x.content) && !Generated(path);
      assert [] + path == path;
      KeptIsGathered(root, [], path);
    }
    if item in Gather(root, []) {
      var rest := GatherFinds(root, [], item);
      assert [] + rest == rest;
      if rest == [] { RootIsNoFile(root); }
      var x := Item(PACKAGE_PREFIX + Join(rest), item.content);
      assert x in files;
      RelativeOf(x, Join(rest));
    }
  }

  /** Sorted by full name or by relative name, the two implementations frame the same stream. */
  lemma ReleaseStreamAgrees(files: seq<Item>, root: Node)
    requires root.Dir? && WellFormed(root) && Lists(files, root)
    ensures ReleaseItems(files) == Inventory(root)
    ensures Stream(ReleaseItems(files)) == Stream(Inventory(root))
  {
    var listed := PackageNames(files);
    var names := Sorted(listed, ByName());
    var items := ReleaseItems(files);
    assert |items| == |names| && forall k :: 0 <= k < |names| ==> items[k] == Relative(names[k]);
    assert items == RelativeAll(names);
    hide StartsWith, PACKAGE_PREFIX, Gather, WellFormed, Relative, ReleaseItems, Sorted, PackageNames, RelativeAll, Stream, ByName;
    PackageNamesAre(files);
    assert NamesDistinct(listed) by { assert NamesDistinct(files); }
    hide Lists;
    forall x ensures x in names <==> x in files && StartsWith(x.name, PACKAGE_PREFIX) {
      assert x in names <==> x in multiset(names);
      assert x in listed <==> x in multiset(listed);
    }
    NameOrder();
    SortedIsSorted(listed, ByName());
    DistinctPermuted(listed, names);
    StrippedStaysSorted(names);
    StrippedIsGathered(files, root, names, items);
    EmptyIsClean();
    GatherDistinct(root, []);
    SameItemsSameMultiset(Gather(root, []), items);
    NamesStrict(root);
    SortedIsSorted(Gather(root, []), ByName());
    SortedUnique(Inventory(root), items, ByName());
  }

  lemma StrippedIsGathered(files: seq<Item>, root: Node, names: seq<Item>, items: seq<Item>)
    requires root.Dir? && WellFormed(root) && Lists(files, root)
    requires forall x :: x in names <==> x in files && StartsWith(x.name, PACKAGE_PREFIX)
    requires |items| == |names| && forall k :: 0 <= k < |names| ==> items[k] == Relative(names[k])
    ensures forall item :: item in items <==> item in Gather(root, [])
  {
    hide StartsWith, PACKAGE_PREFIX, Gather, WellFormed, Relative, Lists;
    forall item ensures item in items <==> item in Gather(root, []) {
      StrippedMembers(files, root, item);
      if item in items {
        var k :| 0 <= k < |items| && items[k] == item;
        assert names[k] in names;
      }
      if x :| x in files && StartsWith(x.name, PACKAGE_PREFIX) && Relative(x) == item {
        var k :| 0 <= k < |names| && names[k] == x;
        assert items[k] == item;
      }
    }
  }

  lemma DistinctPermuted(a: seq<Item>, b: seq<Item>)
    requires NamesDistinct(a) && multiset(a) == multiset(b)
    ensures NamesDistinct(b)
  {
    var same := (x: Item, y: Item) => x.name == y.name;
    ApartPermuted(a, b, same);
    forall i, j | 0 <= i < j < |b| ensures b[i].name != b[j].name {
      assert !same(b[i], b[j]);
    }
  }
}
