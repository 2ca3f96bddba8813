/**
 Relative paths: their parts, their POSIX text, the check that admits a text from outside,
 and case folding.
 */
module Paths {
  import opened Common

  type Path = seq<string>

  /** One component as a directory entry can carry it. */
  predicate Name(s: string) {
    s != "" && s != "." && s != ".." && '/' !in s && '\0' !in s
  }

  predicate Clean(p: Path) {
    forall i :: 0 <= i < |p| ==> Name(p[i])
  }

  /** `as_posix()` of a non-empty relative path. */
  function Join(p: Path): string {
    if p == [] then ""
    else if |p| == 1 then p[0]
    else p[0] + ("/" + Join(p[1..]))
  }

  function UpToSlash(s: string): (n: nat)
    ensures n <= |s| && '/' !in s[..n] && (n < |s| ==> s[n] == '/')
  {
    if s == "" || s[0] == '/' then 0
    else
      var n := 1 + UpToSlash(s[1..]);
      assert s[..n] == [s[0]] + s[1..][..n - 1];
      n
  }

  /** `text.split("/")`. */
  function Split(s: string): (r: seq<string>)
    ensures |r| > 0
    decreases |s|
  {
    var n := UpToSlash(s);
    if n == |s| then [s] else [s[..n]] + Split(s[n + 1..])
  }

  /** What pathlib keeps of the split text: neither empty parts nor ".". */
  function Kept(parts: seq<string>): seq<string> {
    if parts == [] then []
    else if parts[0] == "" || parts[0] == "." then Kept(parts[1..])
    else [parts[0]] + Kept(parts[1..])
  }

  /** `PurePosixPath(s).parts` of a relative text. */
  function PartsOf(s: string): Path {
    Kept(Split(s))
  }

  const MAX_PATH_CHARS := 4096

  /** `_validated_relative_path`; a text without any part is refused as well. */
  predicate ValidRelative(s: string) {
    && s != "" && |s| <= MAX_PATH_CHARS && '\\' !in s && '\0' !in s && s[0] != '/'
    && ".." !in PartsOf(s) && PartsOf(s) != [] && Join(PartsOf(s)) == s && ':' !in PartsOf(s)[0]
  }

  lemma {:induction false} UpToSlashIn(a: string, rest: string)
    requires '/' !in a
    ensures UpToSlash(a) == |a| && UpToSlash(a + ("/" + rest)) == |a|
  {
    var t := a + ("/" + rest);
    assert t[|a|] == '/';
    assert forall i :: 0 <= i < |a| ==> t[i] == a[i];
  }

  lemma SplitNone(s: string)
    requires '/' !in s
    ensures Split(s) == [s]
  {
    UpToSlashIn(s, "");
  }

  lemma SplitFirst(first: string, rest: string)
    requires '/' !in first
    ensures Split(first + ("/" + rest)) == [first] + Split(rest)
  {
    UpToSlashIn(first, rest);
    var t := first + ("/" + rest);
    assert t[..|first|] == first && t[|first| + 1..] == rest;
  }

  lemma {:induction false} SplitJoined(p: Path)
    requires Clean(p) && p != []
    ensures Split(Join(p)) == p
  {
    hide Split;
    if |p| == 1 {
      SplitNone(p[0]);
      assert p == [p[0]];
    } else {
      SplitFirst(p[0], Join(p[1..]));
      SplitJoined(p[1..]);
      assert p == [p[0]] + p[1..];
    }
  }

  lemma {:induction false} KeepsClean(p: Path)
    requires Clean(p)
    ensures Kept(p) == p
  {
    if p != [] { KeepsClean(p[1..]); }
  }

  /** Parsing the text of clean parts gives the parts back. */
  lemma PartsOfJoined(p: Path)
    requires Clean(p) && p != []
    ensures PartsOf(Join(p)) == p
  {
    SplitJoined(p);
    KeepsClean(p);
  }

  lemma JoinInjective(p: Path, q: Path)
    requires Clean(p) && Clean(q) && p != [] && q != [] && Join(p) == Join(q)
    ensures p == q
  {
    PartsOfJoined(p);
    PartsOfJoined(q);
  }

  lemma {:induction false} SplitHasNoSlash(s: string)
    ensures forall i :: 0 <= i < |Split(s)| ==> '/' !in Split(s)[i] && (forall c :: c in Split(s)[i] ==> c in s)
    decreases |s|
  {
    var n := UpToSlash(s);
    if n < |s| {
      SplitHasNoSlash(s[n + 1..]);
    }
  }

  lemma {:induction false} KeptFrom(parts: seq<string>)
    ensures forall i :: 0 <= i < |Kept(parts)| ==> Kept(parts)[i] in parts && Kept(parts)[i] != "" && Kept(parts)[i] != "."
  {
    if parts != [] { KeptFrom(parts[1..]); }
  }

  lemma {:induction false} CharsOfJoin(p: Path, c: char)
    requires c != '/'
    ensures c in Join(p) <==> exists i :: 0 <= i < |p| && c in p[i]
  {
    if |p| > 1 {
      CharsOfJoin(p[1..], c);
      if i :| 0 <= i < |p| && c in p[i] {
        if i > 0 { assert p[1..][i - 1] == p[i]; }
      }
      if c in Join(p[1..]) {
        var i :| 0 <= i < |p[1..]| && c in p[1..][i];
        assert p[i + 1] == p[1..][i];
      }
    }
  }

  lemma JoinedIsValid(p: Path)
    requires p != [] && Clean(p) && ':' !in p[0] && '\\' !in Join(p) && |Join(p)| <= MAX_PATH_CHARS
    ensures ValidRelative(Join(p))
  {
    PartsOfJoined(p);
    CharsOfJoin(p, '\0');
    assert Join(p)[0] == p[0][0];
  }

  /** The check admits exactly the texts of clean relative paths that stay in bounds. */
  lemma ValidRelativeIsExact(s: string)
    ensures ValidRelative(s) <==>
            && |s| <= MAX_PATH_CHARS && '\\' !in s
            && exists p :: p != [] && Clean(p) && Join(p) == s && ':' !in p[0]
  {
    if ValidRelative(s) {
      var p := PartsOf(s);
      KeptFrom(Split(s));
      SplitHasNoSlash(s);
      forall i | 0 <= i < |p| ensures Name(p[i]) {
        var k :| 0 <= k < |Split(s)| && Split(s)[k] == p[i];
      }
      assert Clean(p);
    }
    if |s| <= MAX_PATH_CHARS && '\\' !in s {
      if p :| p != [] && Clean(p) && Join(p) == s && ':' !in p[0] {
        JoinedIsValid(p);
      }
    }
  }

  lemma {:induction false} SplitAfter(p: Path, rest: string)
    requires Clean(p) && p != []
    ensures Split(Join(p) + ("/" + rest)) == p + Split(rest)
  {
    hide Split;
    if |p| == 1 {
      SplitFirst(p[0], rest);
      assert p == [p[0]];
    } else {
      Regroup(p[0], "/" + Join(p[1..]), "/" + rest);
      Regroup("/", Join(p[1..]), "/" + rest);
      SplitFirst(p[0], Join(p[1..]) + ("/" + rest));
      SplitAfter(p[1..], rest);
      assert [p[0]] + (p[1..] + Split(rest)) == p + Split(rest);
    }
  }

  lemma AfterSlash(s: string, a: string)
    requires StartsWith(s, a + "/")
    ensures s == a + ("/" + s[|a| + 1..])
  {
    assert s == (a + "/") + s[|a| + 1..];
  }

  /** A text that continues another one after a slash lies below it. */
  lemma JoinPrefix(p: Path, q: Path)
    requires Clean(p) && Clean(q) && p != [] && q != []
    requires StartsWith(Join(q), Join(p) + "/")
    ensures |p| < |q| && q[..|p|] == p
  {
    hide Join, Split, StartsWith;
    assert |Join(q)| > |Join(p)| by { AfterSlash(Join(q), Join(p)); }
    var rest := Join(q)[|Join(p)| + 1..];
    AfterSlash(Join(q), Join(p));
    SplitAfter(p, rest);
    SplitJoined(q);
    assert q == p + Split(rest);
  }

  lemma JoinedIsNotDot(p: Path)
    requires Clean(p) && p != []
    ensures Join(p) != "." && Join(p) != ""
  {
    if |p| > 1 {
      assert Join(p)[|p[0]|] == '/';
    }
  }

  // --------------------------------------------------------------- case folding

  /** `str.casefold` works character by character, lower-cases ASCII and never drops a character. */
  type FoldTable = f: char -> string | forall c: char :: f(c) != "" && (c as int < 0x80 ==> f(c) == [AsciiLower(c)])
    witness (c: char) => [AsciiLower(c)]

  function AsciiLower(c: char): char {
    if 'A' <= c <= 'Z' then c - 'A' + 'a' else c
  }

  function Fold(f: FoldTable, s: string): string {
    if s == "" then "" else f(s[0]) + Fold(f, s[1..])
  }

  lemma {:induction false} FoldConcat(f: FoldTable, a: string, b: string)
    ensures Fold(f, a + b) == Fold(f, a) + Fold(f, b)
  {
    if a == "" {
      assert a + b == b;
    } else {
      assert (a + b)[1..] == a[1..] + b;
      FoldConcat(f, a[1..], b);
      assert f(a[0]) + (Fold(f, a[1..]) + Fold(f, b)) == (f(a[0]) + Fold(f, a[1..])) + Fold(f, b);
    }
  }

  predicate LowerAscii(s: string) {
    forall i :: 0 <= i < |s| ==> s[i] as int < 0x80 && !('A' <= s[i] <= 'Z')
  }

  lemma {:induction false} FoldLower(f: FoldTable, s: string)
    requires LowerAscii(s)
    ensures Fold(f, s) == s
  {
    if s != "" {
      FoldLower(f, s[1..]);
      assert s == [s[0]] + s[1..];
    }
  }

  /** Folding below a fixed lower-case prefix leaves the prefix alone. */
  lemma FoldBelow(f: FoldTable, prefix: string, s: string)
    requires LowerAscii(prefix)
    ensures Fold(f, prefix + s) == prefix + Fold(f, s)
  {
    FoldConcat(f, prefix, s);
    FoldLower(f, prefix);
  }
}
