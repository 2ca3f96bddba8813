/**
 The rules for sidecar files in literal terms: extensions and MIME types, suffixes, language tags,
 descriptions, stored paths and accepted lists.
 */
module SidecarRules {
  import opened Common
  import opened Decimal
  import opened Paths
  import opened SidecarNames

  // ------------------------------------------------------------------------ tables

  /** The MIME type of every admitted extension, and no other. */
  lemma TablesAreExact(suffix: string, mime: string)
    ensures ThumbnailMime(suffix) == Some(mime)
            <==> (suffix, mime) in {(".avif", "image/avif"), (".bmp", "image/bmp"), (".gif", "image/gif"), (".jpe", "image/jpeg"),
                                    (".jpeg", "image/jpeg"), (".jpg", "image/jpeg"), (".png", "image/png"), (".webp", "image/webp")}
    ensures CaptionMime(suffix) == Some(mime)
            <==> (suffix, mime) in {(".ass", "text/x-ssa"), (".ssa", "text/x-ssa"), (".json3", "application/json"), (".lrc", "text/plain"),
                                    (".smi", "application/smil+xml"), (".srt", "application/x-subrip"), (".srv1", "application/xml"),
                                    (".srv2", "application/xml"), (".srv3", "application/xml"), (".ttml", "application/ttml+xml"),
                                    (".vtt", "text/vtt")}
  {
  }

  // -------------------------------------------------------------------------- texts

  /** The suffix of a name is its last dot and what follows, unless one of its sides would be empty. */
  lemma SuffixExactly(name: string, suffix: string)
    requires suffix != ""
    ensures Suffix(name) == suffix
            <==> |suffix| >= 2 && suffix[0] == '.' && '.' !in suffix[1..] && exists stem :: stem != "" && name == stem + suffix
  {
    if Suffix(name) == suffix {
      var stem := name[..|name| - |suffix|];
      assert name == stem + suffix;
    }
    if |suffix| >= 2 && suffix[0] == '.' && '.' !in suffix[1..] {
      if stem :| stem != "" && name == stem + suffix { SuffixOf(stem, suffix); }
    }
  }

  /** `t` stands in `s` from position `i` on. */
  predicate StandsAt(s: string, t: string, i: nat) {
    i + |t| <= |s| && s[i..i + |t|] == t
  }

  lemma {:induction false} ContainsExactly(s: string, t: string)
    ensures Contains(s, t) <==> exists i: nat :: StandsAt(s, t, i)
  {
    if StartsWith(s, t) {
      assert StandsAt(s, t, 0);
    } else if s != "" {
      ContainsExactly(s[1..], t);
      if i: nat :| StandsAt(s[1..], t, i) {
        assert s[1..][i..i + |t|] == s[i + 1..i + 1 + |t|];
        assert StandsAt(s, t, i + 1);
      }
      if i: nat :| StandsAt(s, t, i) {
        if i > 0 {
          assert s[1..][i - 1..i - 1 + |t|] == s[i..i + |t|];
          assert StandsAt(s[1..], t, i - 1);
        }
      }
    }
  }

  /** The groups with a dash between any two. */
  function Dashes(groups: seq<string>): string {
    if groups == [] then "" else if |groups| == 1 then groups[0] else groups[0] + ("-" + Dashes(groups[1..]))
  }

  predicate TailGroup(s: string) {
    1 <= |s| <= 8 && forall c :: c in s ==> 'a' <= c <= 'z' || 'A' <= c <= 'Z' || '0' <= c <= '9'
  }

  ghost predicate TagGroups(groups: seq<string>) {
    && groups != [] && 2 <= |groups[0]| <= 8 && (forall c :: c in groups[0] ==> 'a' <= c <= 'z' || 'A' <= c <= 'Z')
    && forall i :: 1 <= i < |groups| ==> TailGroup(groups[i])
  }

  ghost predicate Joins(s: string, groups: seq<string>) {
    groups != [] && s == Dashes(groups)
  }

  lemma {:induction false} UpToDashOf(head: string, rest: string)
    requires '-' !in head && (rest == "" || rest[0] == '-')
    ensures UpToDash(head + rest) == |head|
  {
    if head == "" {
      assert head + rest == rest;
    } else {
      assert (head + rest)[1..] == head[1..] + rest;
      UpToDashOf(head[1..], rest);
    }
  }

  lemma {:induction false} TagRestExactly(groups: seq<string>)
    requires forall i :: 0 <= i < |groups| ==> TailGroup(groups[i])
    requires groups != []
    ensures IsTagRest("-" + Dashes(groups))
    decreases |groups|
  {
    var s := "-" + Dashes(groups);
    var head := groups[0];
    var rest := if |groups| == 1 then "" else "-" + Dashes(groups[1..]);
    NoDash(head);
    UpToDashOf(head, rest);
    assert s[1..] == head + rest;
    assert s[1..1 + |head|] == head && s[1 + |head|..] == rest;
    forall i | 0 <= i < |head| ensures Alphanumeric(head[i]) { assert head[i] in head; }
    if |groups| > 1 { TagRestExactly(groups[1..]); }
  }

  lemma NoDash(group: string)
    requires forall c :: c in group ==> Alphanumeric(c)
    ensures '-' !in group
  {
  }

  lemma {:induction false} TagRestGroups(s: string) returns (groups: seq<string>)
    requires IsTagRest(s) && s != ""
    ensures groups != [] && s == "-" + Dashes(groups) && forall i :: 0 <= i < |groups| ==> TailGroup(groups[i])
    decreases |s|
  {
    var n := UpToDash(s[1..]);
    var head, rest := s[1..1 + n], s[1 + n..];
    assert s == "-" + (head + rest);
    if rest == "" {
      groups := [head];
      assert head + rest == head;
    } else {
      var more := TagRestGroups(rest);
      groups := [head] + more;
      assert groups[1..] == more;
    }
  }

  lemma TagHasGroups(s: string) returns (groups: seq<string>)
    requires IsTag(s)
    ensures TagGroups(groups) && Joins(s, groups)
  {
    var n := UpToDash(s);
    var head, rest := s[..n], s[n..];
    assert s == head + rest;
    groups := [head];
    if rest != "" {
      var more := TagRestGroups(rest);
      groups := [head] + more;
      assert groups[1..] == more;
    }
  }

  lemma GroupsMakeTag(s: string, groups: seq<string>)
    requires TagGroups(groups) && Joins(s, groups)
    ensures IsTag(s)
  {
    var head := groups[0];
    var rest := if |groups| == 1 then "" else "-" + Dashes(groups[1..]);
    NoDash(head);
    UpToDashOf(head, rest);
    assert s == head + rest;
    assert s[..|head|] == head && s[|head|..] == rest;
    forall i | 0 <= i < |head| ensures Letter(head[i]) { assert head[i] in head; }
    if |groups| > 1 { TagRestExactly(groups[1..]); }
  }

  /** A language tag is 2 to 8 letters, then groups of 1 to 8 letters or digits, with dashes between. */
  lemma TagExactly(s: string)
    ensures IsTag(s) <==> exists groups :: TagGroups(groups) && Joins(s, groups)
  {
    hide IsTag, TagGroups, Joins;
    if IsTag(s) { var groups := TagHasGroups(s); }
    if groups :| TagGroups(groups) && Joins(s, groups) { GroupsMakeTag(s, groups); }
  }

  // --------------------------------------------------------------------- descriptions

  /** The name is `<before>.caption.<language><suffix>`, the marker in whatever case, no dot in the language. */
  ghost predicate NamesLanguage(name: string, suffix: string, language: string) {
    && language != "" && '.' !in language
    && exists before :: name == before + ("." + (language + suffix)) && EndsWith(Lower(before), ".caption")
  }

  lemma CaptionLanguageExactly(name: string, suffix: string, language: string)
    requires |suffix| <= |name| && name[|name| - |suffix|..] == suffix
    ensures CaptionLanguage(name, suffix) == Some(language) <==> NamesLanguage(name, suffix, language)
  {
    var stem := name[..|name| - |suffix|];
    assert name == stem + suffix;
    if CaptionLanguage(name, suffix) == Some(language) { LanguageNamed(name, stem, suffix, language); }
    if NamesLanguage(name, suffix, language) {
      var before :| name == before + ("." + (language + suffix)) && EndsWith(Lower(before), ".caption");
      StemIs(name, stem, suffix, before, language);
      LastAtOf(before, language, '.');
      assert stem[..|before|] == before && stem[|before| + 1..] == language;
    }
  }

  lemma LanguageNamed(name: string, stem: string, suffix: string, language: string)
    requires name == stem + suffix && name[..|name| - |suffix|] == stem && CaptionLanguage(name, suffix) == Some(language)
    ensures NamesLanguage(name, suffix, language)
  {
    var n := LastAt(stem, '.');
    assert stem == stem[..n] + ("." + stem[n + 1..]);
    assert name == stem[..n] + ("." + (language + suffix));
  }

  lemma StemIs(name: string, stem: string, suffix: string, before: string, language: string)
    requires name == stem + suffix && name == before + ("." + (language + suffix))
    ensures stem == before + ("." + language)
  {
    var other := before + ("." + language);
    assert name == other + suffix;
    assert name[..|name| - |suffix|] == other && name[..|name| - |suffix|] == stem;
  }

  /** What a produced file is described as: its ordinal is not negative, its extension admitted, its marker there, its language a tag. */
  lemma DescribeExactly(name: string, kind: string, ordinal: int)
    ensures var suffix := Lower(Suffix(name));
            var r := Describe(name, kind, ordinal);
            if ordinal < 0 then r == Err(OrdinalInvalid)
            else if kind != "thumbnail" && kind != "caption" then r == Err(KindNotAllowed)
            else if MimeOf(kind, suffix).None? then r == Err(ExtensionNotAllowed)
            else if kind == "thumbnail" then
              r == if exists i: nat :: StandsAt(Lower(name), ".thumbnail.", i) then
                     Ok(Sidecar(name, kind, ordinal, MimeOf(kind, suffix).value, None))
                   else Err(MarkerMissing)
            else if exists language :: NamesLanguage(name, Suffix(name), language) && IsTag(Dashed(language)) then
              exists language :: NamesLanguage(name, Suffix(name), language) && IsTag(Dashed(language))
                                 && r == Ok(Sidecar(name, kind, ordinal, MimeOf(kind, suffix).value, Some(Dashed(language))))
            else r == Err(LanguageUnsafe)
  {
    hide ThumbnailMime, CaptionMime, IsTag, Contains, StandsAt, CaptionLanguage, NamesLanguage, Suffix, Lower, Dashed;
    KindTexts();
    ContainsExactly(Lower(name), ".thumbnail.");
    SuffixEnds(name);
    forall language ensures CaptionLanguage(name, Suffix(name)) == Some(language) <==> NamesLanguage(name, Suffix(name), language) {
      CaptionLanguageExactly(name, Suffix(name), language);
    }
    CaptionLanguageLowered(name);
  }

  lemma KindTexts()
    ensures "thumbnail" != "caption" && |".thumbnail."| == 11
  {
    assert |"thumbnail"| == 9 && |"caption"| == 7;
  }

  lemma SuffixEnds(name: string)
    ensures |Suffix(name)| <= |name| && name[|name| - |Suffix(name)|..] == Suffix(name)
  {
    if Suffix(name) == "" { assert name[|name|..] == ""; }
  }

  lemma CaptionLanguageLowered(name: string)
    ensures |Lower(Suffix(name))| == |Suffix(name)| && CaptionLanguage(name, Lower(Suffix(name))) == CaptionLanguage(name, Suffix(name))
  {
  }

  // ------------------------------------------------------------------------- storage

  /** Where a sidecar is stored, as text. */
  lemma PathExactly(assetId: string, s: Sidecar)
    requires s.ordinal >= 0 && (s.kind == "thumbnail" || s.kind == "caption") && (s.kind == "caption" <==> s.language.Some?)
    ensures var suffix := Lower(Suffix(s.name));
            PathOf(assetId, s)
            == if s.kind == "thumbnail" then "assets/" + assetId + "/thumbnails/thumbnail-" + Padded(s.ordinal) + suffix
               else "assets/" + assetId + "/captions/caption-" + Padded(s.ordinal) + "-" + s.language.value + suffix
  {
    hide Padded, Suffix, Lower, Join, FileName, DirectoryOf;
    StoredAs(assetId, s.kind, s.ordinal, s.language, Lower(Suffix(s.name)));
  }

  lemma StoredAs(assetId: string, kind: string, ordinal: nat, language: Option<string>, suffix: string)
    requires (kind == "thumbnail" || kind == "caption") && (kind == "caption" <==> language.Some?)
    ensures StoredPath(assetId, kind, FileName(kind, ordinal, language, suffix))
            == if kind == "thumbnail" then "assets/" + assetId + "/thumbnails/thumbnail-" + Padded(ordinal) + suffix
               else "assets/" + assetId + "/captions/caption-" + Padded(ordinal) + "-" + language.value + suffix
  {
    hide Padded, Join;
    KindTexts();
    JoinFour("assets", assetId, DirectoryOf(kind), FileName(kind, ordinal, language, suffix));
    if kind == "thumbnail" {
      ThumbnailText(assetId, Padded(ordinal), suffix);
    } else {
      CaptionText(assetId, Padded(ordinal), language.value, suffix);
    }
  }

  lemma ThumbnailText(assetId: string, number: string, suffix: string)
    ensures "assets" + "/" + assetId + "/" + "thumbnails" + "/" + ("thumbnail-" + (number + suffix))
            == "assets/" + assetId + "/thumbnails/thumbnail-" + number + suffix
  {
    assert "assets/" == "assets" + "/" && "/thumbnails/thumbnail-" == "/" + "thumbnails" + "/" + "thumbnail-";
    Regrouped("assets/" + assetId, "/" + "thumbnails" + "/", "thumbnail-", number, suffix);
  }

  lemma CaptionText(assetId: string, number: string, language: string, suffix: string)
    ensures "assets" + "/" + assetId + "/" + "captions" + "/" + ("caption-" + (number + ("-" + (language + suffix))))
            == "assets/" + assetId + "/captions/caption-" + number + "-" + language + suffix
  {
    assert "assets/" == "assets" + "/" && "/captions/caption-" == "/" + "captions" + "/" + "caption-";
    Regrouped("assets/" + assetId, "/" + "captions" + "/", "caption-", number, "-" + (language + suffix));
  }

  lemma Regrouped(a: string, b: string, c: string, d: string, e: string)
    ensures a + b + (c + (d + e)) == a + (b + c) + d + e
  {
  }

  lemma JoinFour(a: string, b: string, c: string, d: string)
    ensures Join([a, b, c, d]) == a + "/" + b + "/" + c + "/" + d
  {
    assert [a, b, c, d][1..] == [b, c, d] && [b, c, d][1..] == [c, d] && [c, d][1..] == [d];
    assert Join([d]) == d && Join([c, d]) == c + ("/" + d) && Join([b, c, d]) == b + ("/" + (c + ("/" + d)));
  }

  // -------------------------------------------------------------------------- lists

  ghost function OfKind(files: seq<Produced>, kind: string, k: nat): set<nat>
    requires k <= |files|
  {
    set i: nat | i < k && files[i].sidecar.kind == kind
  }

  lemma {:induction false} CountIsSize(files: seq<Produced>, kind: string, k: nat)
    requires k <= |files|
    ensures CountTo(files, kind, k) == |OfKind(files, kind, k)|
  {
    if k > 0 {
      CountIsSize(files, kind, k - 1);
      assert OfKind(files, kind, k) == OfKind(files, kind, k - 1) + if files[k - 1].sidecar.kind == kind then {k - 1} else {};
    }
  }

  /**
   A download may have these sidecars: each is described as recorded, is not the source itself and not too
   large, no two are one file or share kind and ordinal, and there are at most 8 thumbnails and 32 captions.
   */
  lemma AcceptableExactly(source: (int, int), maxSize: nat, files: seq<Produced>)
    ensures Acceptable(source, maxSize, files)
            <==> && (forall f :: f in files ==>
                       Describe(f.sidecar.name, f.sidecar.kind, f.sidecar.ordinal) == Ok(f.sidecar) && f.identity != source && f.size <= maxSize)
                 && (forall i, j :: 0 <= i < j < |files| ==> files[i].identity != files[j].identity)
                 && (forall i, j :: 0 <= i < j < |files| && files[i].sidecar.kind == files[j].sidecar.kind ==>
                       files[i].sidecar.ordinal != files[j].sidecar.ordinal)
                 && |OfKind(files, "thumbnail", |files|)| <= 8 && |OfKind(files, "caption", |files|)| <= 32
  {
    hide Describe, OfKind, CountTo;
    CountIsSize(files, "thumbnail", |files|);
    CountIsSize(files, "caption", |files|);
    if forall i :: 0 <= i < |files| ==> Sound(source, maxSize, files[i]) {
      forall f | f in files
        ensures Describe(f.sidecar.name, f.sidecar.kind, f.sidecar.ordinal) == Ok(f.sidecar) && f.identity != source && f.size <= maxSize
      {
        var i :| 0 <= i < |files| && files[i] == f;
        assert Sound(source, maxSize, files[i]);
      }
    }
    forall i, j | 0 <= i < j < |files|
      ensures Unlike(files[i], files[j])
              <==> files[i].identity != files[j].identity
                   && (files[i].sidecar.kind == files[j].sidecar.kind ==> files[i].sidecar.ordinal != files[j].sidecar.ordinal)
    {
    }
  }
}
