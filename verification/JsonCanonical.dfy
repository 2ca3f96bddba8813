/**
 The canonical text of a JSON value: `json.dumps(..., sort_keys=True)` over what `json.loads`
 makes of an object, where the last of several equal keys wins.
 */
module JsonCanonical {
  import opened Common
  import opened Json
  import opened Ordering

  /** Names strictly increasing, at every level. */
  predicate IsCanonical(v: Value) {
    match v
    case Arr(items) => forall i :: 0 <= i < |items| ==> IsCanonical(items[i])
    case Obj(fields) => Increasing(fields) && forall i :: 0 <= i < |fields| ==> IsCanonical(fields[i].value)
    case _ => true
  }

  predicate Increasing(fields: seq<Field>) {
    forall i, j :: 0 <= i < j < |fields| ==> Less(fields[i].name, fields[j].name)
  }

  /** Store a member: replace an equal name, or keep the names in order. */
  function Put(fields: seq<Field>, f: Field): seq<Field> {
    if fields == [] || Less(f.name, fields[0].name) then [f] + fields
    else if fields[0].name == f.name then [f] + fields[1..]
    else [fields[0]] + Put(fields[1..], f)
  }

  function Canonical(v: Value): Value
    decreases v
  {
    match v
    case Arr(items) => Arr(CanonicalItems(items))
    case Obj(fields) => Obj(CanonicalFields(fields))
    case _ => v
  }

  function CanonicalItems(items: seq<Value>): seq<Value>
    decreases items
  {
    if items == [] then [] else [Canonical(items[0])] + CanonicalItems(items[1..])
  }

  function CanonicalFields(fields: seq<Field>): seq<Field>
    decreases fields
  {
    if fields == [] then []
    else
      var f := Last(fields);
      Put(CanonicalFields(fields[..|fields| - 1]), Field(f.name, Canonical(f.value)))
  }

  /** The member a parsed object answers for a name. */
  function Get(fields: seq<Field>, name: string): Option<Value> {
    if fields == [] then None
    else if Last(fields).name == name then Some(Last(fields).value)
    else Get(fields[..|fields| - 1], name)
  }

  lemma {:induction false} PutIncreasing(fields: seq<Field>, f: Field)
    requires Increasing(fields)
    ensures Increasing(Put(fields, f))
    ensures forall g :: g in Put(fields, f) ==> g == f || g in fields
  {
    if fields == [] {
    } else if Less(f.name, fields[0].name) {
      forall j | 0 <= j < |fields| ensures Less(f.name, fields[j].name) {
        if j > 0 { LessTransitive(f.name, fields[0].name, fields[j].name); }
      }
    } else if fields[0].name == f.name {
      LessIrreflexive(f.name);
    } else {
      PutIncreasing(fields[1..], f);
      LessTotal(f.name, fields[0].name);
      var rest := Put(fields[1..], f);
      forall g | g in rest ensures Less(fields[0].name, g.name) {
        if g != f {
          assert g in fields[1..];
          var k :| 0 <= k < |fields| - 1 && fields[1..][k] == g;
          assert fields[k + 1] == g;
        }
      }
    }
  }

  lemma {:induction false} PutGreatest(fields: seq<Field>, f: Field)
    requires forall i :: 0 <= i < |fields| ==> Less(fields[i].name, f.name)
    ensures Put(fields, f) == fields + [f]
  {
    if fields == [] {
    } else {
      LessTotal(fields[0].name, f.name);
      if fields[0].name == f.name { LessIrreflexive(f.name); }
      PutGreatest(fields[1..], f);
      assert fields + [f] == [fields[0]] + (fields[1..] + [f]);
    }
  }

  lemma {:induction false} CanonicalOfItems(items: seq<Value>)
    ensures |CanonicalItems(items)| == |items|
    ensures forall i :: 0 <= i < |items| ==> CanonicalItems(items)[i] == Canonical(items[i])
  {
    if items != [] {
      CanonicalOfItems(items[1..]);
    }
  }

  lemma {:induction false} CanonicalIsCanonical(v: Value)
    ensures IsCanonical(Canonical(v))
    decreases v
  {
    match v
    case Arr(items) =>
      CanonicalOfItems(items);
      forall i | 0 <= i < |items| ensures IsCanonical(CanonicalItems(items)[i]) {
        CanonicalIsCanonical(items[i]);
      }
    case Obj(fields) => CanonicalFieldsAreCanonical(fields);
    case _ =>
  }

  lemma {:induction false} CanonicalFieldsAreCanonical(fields: seq<Field>)
    ensures Increasing(CanonicalFields(fields))
    ensures forall f :: f in CanonicalFields(fields) ==> IsCanonical(f.value)
    decreases fields
  {
    if fields != [] {
      var f := Last(fields);
      CanonicalFieldsAreCanonical(fields[..|fields| - 1]);
      CanonicalIsCanonical(f.value);
      PutIncreasing(CanonicalFields(fields[..|fields| - 1]), Field(f.name, Canonical(f.value)));
    }
  }

  lemma {:induction false} CanonicalStays(v: Value)
    requires IsCanonical(v)
    ensures Canonical(v) == v
    decreases v
  {
    match v
    case Arr(items) =>
      CanonicalOfItems(items);
      forall i | 0 <= i < |items| ensures CanonicalItems(items)[i] == items[i] {
        CanonicalStays(items[i]);
      }
      assert CanonicalItems(items) == items;
    case Obj(fields) => CanonicalFieldsStay(fields);
    case _ =>
  }

  lemma {:induction false} CanonicalFieldsStay(fields: seq<Field>)
    requires Increasing(fields) && forall i :: 0 <= i < |fields| ==> IsCanonical(fields[i].value)
    ensures CanonicalFields(fields) == fields
    decreases fields
  {
    if fields != [] {
      var front, f := fields[..|fields| - 1], Last(fields);
      CanonicalFieldsStay(front);
      CanonicalStays(f.value);
      PutGreatest(front, f);
    }
  }

  /** The reader's test: parse the text, print it again, compare. */
  predicate IsCanonicalText(text: string) {
    Loads(text).Some? && Print(Canonical(Loads(text).value), Compact, 0) == text
  }

  /** A text passes that test exactly when it is the compact print of a canonical value. */
  lemma CanonicalTexts(text: string)
    ensures IsCanonicalText(text) <==> exists v :: IsCanonical(v) && text == Print(v, Compact, 0)
  {
    if IsCanonicalText(text) {
      CanonicalIsCanonical(Loads(text).value);
    }
    if v :| IsCanonical(v) && text == Print(v, Compact, 0) {
      LoadsDumps(v, Compact);
      CanonicalStays(v);
    }
  }

  // ------------------------------------------------- asking a parsed value things

  /** `set(member) == names` for a parsed object. */
  predicate HasNames(v: Value, names: set<string>) {
    v.Obj? && (set f | f in v.fields :: f.name) == names
  }

  /** Python's `==` between a parsed JSON value and a column that is text or NULL. */
  predicate EqualsText(v: Option<Value>, t: Option<string>) {
    match v
    case Some(Str(s)) => t == Some(s)
    case Some(Null) => t == None
    case _ => false
  }

  /** Python's `==` between a parsed number and an int; a float equal to `n` is printed `n.0`. */
  predicate EqualsNumber(v: Option<Value>, n: int) {
    match v
    case Some(Num(m)) => m == n
    case Some(Float(negative, whole, scale)) => scale == Scale(Some("0"), None) && n == if negative then 0 - whole else whole
    case _ => false
  }

  /** Python's `==` between a parsed JSON value and an int; `True == 1`. */
  predicate EqualsInt(v: Option<Value>, n: int) {
    EqualsNumber(v, n) || (v.Some? && v.value.Bool? && n == if v.value.b then 1 else 0)
  }

  /** The last member of a name is the one a parsed object answers with. */
  lemma {:induction false} GetAt(fields: seq<Field>, k: nat)
    requires k < |fields| && forall j :: k < j < |fields| ==> fields[j].name != fields[k].name
    ensures Get(fields, fields[k].name) == Some(fields[k].value)
  {
    if k < |fields| - 1 {
      assert Last(fields).name != fields[k].name;
      GetAt(fields[..|fields| - 1], k);
    }
  }

  lemma IncreasingGet(fields: seq<Field>, k: nat)
    requires Increasing(fields) && k < |fields|
    ensures Get(fields, fields[k].name) == Some(fields[k].value)
  {
    hide Less;
    forall j | k < j < |fields| ensures fields[j].name != fields[k].name {
      LessIrreflexive(fields[k].name);
    }
    GetAt(fields, k);
  }

  /** Names that increase step by step increase throughout. */
  lemma {:induction false} StepwiseIncreasing(fields: seq<Field>)
    requires forall i :: 0 <= i < |fields| - 1 ==> Less(fields[i].name, fields[i + 1].name)
    ensures Increasing(fields)
  {
    if |fields| > 1 {
      StepwiseIncreasing(fields[..|fields| - 1]);
      forall i | 0 <= i < |fields| - 1 ensures Less(fields[i].name, Last(fields).name) {
        var n := |fields| - 2;
        assert Less(fields[n].name, fields[n + 1].name);
        if i < n {
          assert Less(fields[..|fields| - 1][i].name, fields[..|fields| - 1][n].name);
          LessTransitive(fields[i].name, fields[n].name, fields[n + 1].name);
        }
      }
    }
  }

  /** Canonicalizing an object answers every name as before, canonicalized. */
  lemma {:induction false} GetCanonical(fields: seq<Field>, name: string)
    ensures Get(CanonicalFields(fields), name)
            == match Get(fields, name) case None => None case Some(v) => Some(Canonical(v))
  {
    if fields != [] {
      var front, f := fields[..|fields| - 1], Last(fields);
      GetCanonical(front, name);
      CanonicalFieldsAreCanonical(front);
      GetPut(CanonicalFields(front), Field(f.name, Canonical(f.value)), name);
    }
  }

  lemma GetIsMember(fields: seq<Field>, name: string, v: Value)
    requires Increasing(fields)
    ensures Get(fields, name) == Some(v) <==> Field(name, v) in fields
    decreases fields
  {
    if fields != [] {
      var front := fields[..|fields| - 1];
      assert fields == front + [Last(fields)];
      GetIsMember(front, name, v);
      if Last(fields).name == name && Field(name, v) in front {
        LessIrreflexive(name);
        assert false;
      }
    }
  }

  lemma GetPut(fields: seq<Field>, f: Field, name: string)
    requires Increasing(fields)
    ensures Get(Put(fields, f), name) == if name == f.name then Some(f.value) else Get(fields, name)
  {
    hide Get, Increasing, Less;
    PutIncreasing(fields, f);
    PutMembers(fields, f);
    if name == f.name {
      GetIsMember(Put(fields, f), name, f.value);
    } else if Get(fields, name).Some? {
      GetIsMember(fields, name, Get(fields, name).value);
      GetIsMember(Put(fields, f), name, Get(fields, name).value);
    } else if Get(Put(fields, f), name).Some? {
      GetIsMember(Put(fields, f), name, Get(Put(fields, f), name).value);
      GetIsMember(fields, name, Get(Put(fields, f), name).value);
    }
  }

  lemma {:induction false} PutMembers(fields: seq<Field>, f: Field)
    requires Increasing(fields)
    ensures f in Put(fields, f)
    ensures forall g: Field :: g.name != f.name ==> (g in Put(fields, f) <==> g in fields)
  {
    if fields == [] || Less(f.name, fields[0].name) {
    } else if fields[0].name == f.name {
      assert fields == [fields[0]] + fields[1..];
    } else {
      PutMembers(fields[1..], f);
      assert fields == [fields[0]] + fields[1..];
    }
  }
}
