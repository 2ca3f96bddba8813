/** Sidecar files of an asset, and the names they are stored under. */
module SidecarNames {
  /*
   How staging derives their kind, language and MIME type from a produced file's name, how it names
   the stored copy, and how the download reader takes that name apart again.
   */

  import opened Common
  import opened Decimal
  import opened Paths

  const MAX_THUMBNAILS := 8
  const MAX_CAPTIONS := 32

  datatype Sidecar = Sidecar(name: string, kind: string, ordinal: int, mime: string, language: Option<string>)

  datatype SidecarError =
    | OrdinalInvalid | KindNotAllowed | ExtensionNotAllowed | MarkerMissing | LanguageUnsafe
    | MetadataMismatch | OrdinalRepeated | CountExceeded | FileRepeated | FileTooLarge

  // ---------------------------------------------------------------------- tables

  function ThumbnailMime(suffix: string): Option<string> {
    if suffix == ".avif" then Some("image/avif")
    else if suffix == ".bmp" then Some("image/bmp")
    else if suffix == ".gif" then Some("image/gif")
    else if suffix == ".jpe" || suffix == ".jpeg" || suffix == ".jpg" then Some("image/jpeg")
    else if suffix == ".png" then Some("image/png")
    else if suffix == ".webp" then Some("image/webp")
    else None
  }

  function CaptionMime(suffix: string): Option<string> {
    if suffix == ".ass" || suffix == ".ssa" then Some("text/x-ssa")
    else if suffix == ".json3" then Some("application/json")
    else if suffix == ".lrc" then Some("text/plain")
    else if suffix == ".smi" then Some("application/smil+xml")
    else if suffix == ".srt" then Some("application/x-subrip")
    else if suffix == ".srv1" || suffix == ".srv2" || suffix == ".srv3" then Some("application/xml")
    else if suffix == ".ttml" then Some("application/ttml+xml")
    else if suffix == ".vtt" then Some("text/vtt")
    else None
  }

  function MimeOf(kind: string, suffix: string): Option<string> {
    if kind == "thumbnail" then ThumbnailMime(suffix) else if kind == "caption" then CaptionMime(suffix) else None
  }

  function DirectoryOf(kind: string): string {
    if kind == "thumbnail" then "thumbnails" else "captions"
  }

  // ----------------------------------------------------------------- text helpers

  function Lower(s: string): (r: string)
    ensures |r| == |s| && forall i :: 0 <= i < |s| ==> r[i] == AsciiLower(s[i])
  {
    seq(|s|, i requires 0 <= i < |s| => AsciiLower(s[i]))
  }

  /** Position of the last occurrence of a character, or the length. */
  function LastAt(s: string, c: char): (n: nat)
    ensures n <= |s| && (n < |s| ==> s[n] == c) && c !in s[if n < |s| then n + 1 else 0..]
  {
    if s == "" then 0
    else if s[|s| - 1] == c then |s| - 1
    else
      var n := LastAt(s[..|s| - 1], c);
      if n == |s| - 1 then
        assert c !in s[..|s| - 1][0..];
        assert s == s[..|s| - 1] + [s[|s| - 1]];
        |s|
      else
        assert s[n + 1..] == s[..|s| - 1][n + 1..] + [s[|s| - 1]];
        n
  }

  /** `PurePath.suffix` of a file name. */
  function Suffix(name: string): (r: string)
    ensures |r| <= |name| && (r != "" ==> |r| >= 2 && r[0] == '.' && '.' !in r[1..] && name[|name| - |r|..] == r)
  {
    var n := LastAt(name, '.');
    if 0 < n < |name| - 1 then name[n..] else ""
  }

  predicate Contains(s: string, t: string) {
    StartsWith(s, t) || (s != "" && Contains(s[1..], t))
  }

  predicate Letter(c: char) {
    'a' <= c <= 'z' || 'A' <= c <= 'Z'
  }

  predicate Alphanumeric(c: char) {
    Letter(c) || IsDigit(c)
  }

  function UpToDash(s: string): (n: nat)
    ensures n <= |s| && '-' !in s[..n] && (n < |s| ==> s[n] == '-')
  {
    if s == "" || s[0] == '-' then 0
    else
      var n := 1 + UpToDash(s[1..]);
      assert s[..n] == [s[0]] + s[1..][..n - 1];
      n
  }

  /** `[A-Za-z]{2,8}(?:-[A-Za-z0-9]{1,8})*`. */
  predicate IsTag(s: string) {
    var n := UpToDash(s);
    2 <= n <= 8 && (forall i :: 0 <= i < n ==> Letter(s[i])) && IsTagRest(s[n..])
  }

  predicate IsTagRest(s: string)
    decreases |s|
  {
    s == "" ||
    (s[0] == '-' &&
     var n := UpToDash(s[1..]);
     var group := s[1..1 + n];
     1 <= n <= 8 && (forall i :: 0 <= i < n ==> Alphanumeric(group[i])) && IsTagRest(s[1 + n..]))
  }

  /** `language.replace("_", "-")`. */
  function Dashed(s: string): (r: string)
    ensures |r| == |s|
  {
    seq(|s|, i requires 0 <= i < |s| => if s[i] == '_' then '-' else s[i])
  }

  // -------------------------------------------------------------- what staging does

  /** The text between the last two dots of `name`, when `.caption` stands before it. */
  function CaptionLanguage(name: string, suffix: string): Option<string>
    requires |suffix| <= |name|
  {
    var stem := name[..|name| - |suffix|];
    var n := LastAt(stem, '.');
    if n + 1 < |stem| && EndsWith(Lower(stem[..n]), ".caption") then Some(stem[n + 1..]) else None
  }

  /** `describe_auxiliary_file`. */
  function Describe(name: string, kind: string, ordinal: int): Result<Sidecar, SidecarError> {
    if ordinal < 0 then Err(OrdinalInvalid)
    else
      var suffix := Lower(Suffix(name));
      if kind == "thumbnail" then
        if ThumbnailMime(suffix).None? then Err(ExtensionNotAllowed)
        else if !Contains(Lower(name), ".thumbnail.") then Err(MarkerMissing)
        else Ok(Sidecar(name, kind, ordinal, ThumbnailMime(suffix).value, None))
      else if kind == "caption" then
        if CaptionMime(suffix).None? then Err(ExtensionNotAllowed)
        else
          match CaptionLanguage(name, suffix)
          case None => Err(LanguageUnsafe)
          case Some(language) =>
            if !IsTag(Dashed(language)) then Err(LanguageUnsafe)
            else Ok(Sidecar(name, kind, ordinal, CaptionMime(suffix).value, Some(Dashed(language))))
      else Err(KindNotAllowed)
  }

  /** The stored copy's file name. */
  function FileName(kind: string, ordinal: nat, language: Option<string>, suffix: string): string {
    if kind == "caption" then
      "caption-" + (Padded(ordinal) + ("-" + ((if language.Some? then language.value else "") + suffix)))
    else "thumbnail-" + (Padded(ordinal) + suffix)
  }

  function StoredPath(assetId: string, kind: string, file: string): string {
    Join(["assets", assetId, DirectoryOf(kind), file])
  }

  /** Where staging stores a described sidecar. */
  function PathOf(assetId: string, s: Sidecar): string
    requires s.ordinal >= 0
  {
    StoredPath(assetId, s.kind, FileName(s.kind, s.ordinal, s.language, Lower(Suffix(s.name))))
  }

  // ------------------------------------------------------------ what the reader does

  /** The ordinal's digits and the language in a stem; the language of a thumbnail is empty. */
  function ParseStem(kind: string, stem: string): Option<(string, string)> {
    if kind == "thumbnail" then
      if !StartsWith(stem, "thumbnail-") then None
      else
        var digits := stem[10..];
        if |digits| >= 4 && AllDigits(digits) then Some((digits, "")) else None
    else
      if !StartsWith(stem, "caption-") then None
      else
        var tail := stem[8..];
        var n := DigitRun(tail);
        if n >= 4 && n < |tail| && tail[n] == '-' && IsTag(tail[n + 1..]) then Some((tail[..n], tail[n + 1..])) else None
  }

  /** The ordinal a file name carries, if `kind`, MIME type and language all agree with it. */
  function OrdinalOf(kind: string, file: string, mime: string, language: Option<string>): Option<nat> {
    var suffix := Lower(Suffix(file));
    if MimeOf(kind, suffix) != Some(mime) then None
    else
      match ParseStem(kind, file[..|file| - |suffix|])
      case None => None
      case Some((digits, tag)) =>
        if language != (if kind == "caption" then Some(tag) else None) then None
        else if !AllDigits(digits) || Padded(Number(digits)) != digits then None
        else Some(Number(digits))
  }

  /** `_registered_auxiliary_file`, up to the file itself: the ordinal of an accepted row. */
  function Registered(assetId: string, kind: string, path: string, mime: string, language: Option<string>, sha: string): Option<nat> {
    if !IsCanonicalUuid(assetId) || !(kind == "thumbnail" || kind == "caption") then None
    else if path == "" || |path| > MAX_PATH_CHARS || '\\' in path || '\0' in path then None
    else
      var parts := PartsOf(path);
      if path[0] == '/' || |parts| != 4 || Join(parts) != path || parts[..3] != ["assets", assetId, DirectoryOf(kind)] || ".." in parts
      then None
      else if OrdinalOf(kind, parts[3], mime, language).None? || !IsHex64(sha) then None
      else OrdinalOf(kind, parts[3], mime, language)
  }

  // --------------------------------------------------------------------- names read

  /** A suffix from the tables: one dot, then lower-case letters and digits. */
  lemma TableSuffix(kind: string, suffix: string)
    requires MimeOf(kind, suffix).Some?
    ensures 3 <= |suffix| <= 6 && suffix[0] == '.'
    ensures forall i :: 1 <= i < |suffix| ==> 'a' <= suffix[i] <= 'z' || IsDigit(suffix[i])
  {
  }

  lemma LastAtOf(stem: string, tail: string, c: char)
    requires c !in tail
    ensures LastAt(stem + ([c] + tail), c) == |stem|
  {
    var s := stem + ([c] + tail);
    assert s[|stem|] == c;
    assert s[|stem| + 1..] == tail;
  }

  /** The suffix of a name made of a dotless stem and a table suffix. */
  lemma SuffixOf(stem: string, suffix: string)
    requires stem != "" && |suffix| >= 2 && suffix[0] == '.' && '.' !in suffix[1..]
    ensures Suffix(stem + suffix) == suffix
  {
    assert suffix == ['.'] + suffix[1..];
    LastAtOf(stem, suffix[1..], '.');
    assert (stem + suffix)[|stem|..] == suffix;
  }

  lemma ParseThumbnailName(digits: string)
    requires |digits| >= 4 && AllDigits(digits)
    ensures ParseStem("thumbnail", "thumbnail-" + digits) == Some((digits, ""))
  {
    var stem := "thumbnail-" + digits;
    assert stem[..10] == "thumbnail-" && stem[10..] == digits;
  }

  lemma ParseCaptionName(digits: string, tag: string)
    requires |digits| >= 4 && AllDigits(digits) && IsTag(tag)
    ensures ParseStem("caption", "caption-" + (digits + ("-" + tag))) == Some((digits, tag))
  {
    hide IsTag, DigitRun;
    var tail := digits + ("-" + tag);
    var stem := "caption-" + tail;
    assert stem[..8] == "caption-" && stem[8..] == tail;
    DigitRunOf(digits, "-" + tag);
    assert tail[..|digits|] == digits && tail[|digits|] == '-' && tail[|digits| + 1..] == tag;
    assert |"caption"| == 7 && |"thumbnail"| == 9;
  }

  predicate TagChar(c: char) {
    Alphanumeric(c) || c == '-'
  }

  lemma {:induction false} TagRestChars(s: string)
    requires IsTagRest(s)
    ensures forall i :: 0 <= i < |s| ==> TagChar(s[i])
    decreases |s|
  {
    if s != "" {
      var n := UpToDash(s[1..]);
      var group := s[1..1 + n];
      TagRestChars(s[1 + n..]);
      assert s == [s[0]] + group + s[1 + n..];
    }
  }

  lemma TagChars(s: string)
    requires IsTag(s)
    ensures s != "" && forall i :: 0 <= i < |s| ==> TagChar(s[i])
  {
    var n := UpToDash(s);
    TagRestChars(s[n..]);
    assert s == s[..n] + s[n..];
  }

  /** Staging only prints a language for captions, and then a well-formed one. */
  predicate LanguageFits(kind: string, language: Option<string>) {
    if kind == "caption" then language.Some? && IsTag(language.value) else language.None?
  }

  function Stem(kind: string, ordinal: nat, language: Option<string>): string {
    if kind == "caption" then "caption-" + (Padded(ordinal) + ("-" + (if language.Some? then language.value else "")))
    else "thumbnail-" + Padded(ordinal)
  }

  lemma FileNameSplits(kind: string, ordinal: nat, language: Option<string>, suffix: string)
    ensures FileName(kind, ordinal, language, suffix) == Stem(kind, ordinal, language) + suffix
    ensures Stem(kind, ordinal, language) != ""
  {
    hide Padded;
  }

  lemma StemReads(kind: string, ordinal: nat, language: Option<string>)
    requires (kind == "thumbnail" || kind == "caption") && LanguageFits(kind, language)
    ensures ParseStem(kind, Stem(kind, ordinal, language)) == Some((Padded(ordinal), if language.Some? then language.value else ""))
    ensures AllDigits(Padded(ordinal)) && Number(Padded(ordinal)) == ordinal
  {
    assert |"caption"| == 7 && |"thumbnail"| == 9;
    ValueOfPadded(ordinal);
    hide ParseStem, IsTag, Padded;
    if kind == "caption" {
      ParseCaptionName(Padded(ordinal), language.value);
    } else {
      ParseThumbnailName(Padded(ordinal));
    }
  }

  lemma MixedCaseSuffix(kind: string, suffix: string)
    requires MimeOf(kind, Lower(suffix)).Some?
    ensures |suffix| >= 2 && suffix[0] == '.' && '.' !in suffix[1..]
  {
    TableSuffix(kind, Lower(suffix));
    hide MimeOf;
    assert Lower(suffix)[0] == AsciiLower(suffix[0]);
    forall i | 1 <= i < |suffix| ensures suffix[i] != '.' {
      assert Lower(suffix)[i] == AsciiLower(suffix[i]);
    }
  }

  /** The reader recovers the ordinal of every printed name, whatever the case of its suffix. */
  lemma FileNameReads(kind: string, ordinal: nat, language: Option<string>, suffix: string)
    requires MimeOf(kind, Lower(suffix)).Some? && LanguageFits(kind, language)
    ensures OrdinalOf(kind, FileName(kind, ordinal, language, suffix), MimeOf(kind, Lower(suffix)).value, language) == Some(ordinal)
    ensures Suffix(FileName(kind, ordinal, language, suffix)) == suffix
  {
    hide MimeOf, FileName, Stem, ParseStem, Suffix, Padded, Number, IsTag, Lower;
    MimeKinds(kind, Lower(suffix));
    MixedCaseSuffix(kind, suffix);
    FileNameSplits(kind, ordinal, language, suffix);
    StemReads(kind, ordinal, language);
    var stem := Stem(kind, ordinal, language);
    SuffixOf(stem, suffix);
    assert (stem + suffix)[..|stem|] == stem;
  }

  /** A description that succeeds, in the terms the printer uses. */
  lemma DescribedFits(name: string, kind: string, ordinal: int)
    requires Describe(name, kind, ordinal).Ok?
    ensures var s := Describe(name, kind, ordinal).value;
            && s.kind == kind && s.ordinal == ordinal >= 0 && s.name == name
            && MimeOf(kind, Lower(Suffix(name))) == Some(s.mime) && LanguageFits(kind, s.language)
  {
    hide ThumbnailMime, CaptionMime, IsTag, Contains, CaptionLanguage, Suffix, Lower, Dashed;
    assert |"caption"| == 7 && |"thumbnail"| == 9;
  }

  // ------------------------------------------------------------------ stored paths

  /** Characters a printed file name is made of. */
  predicate FileChar(c: char) {
    Alphanumeric(c) || c == '-' || c == '.'
  }

  lemma SuffixChars(kind: string, suffix: string)
    requires MimeOf(kind, Lower(suffix)).Some?
    ensures forall i :: 0 <= i < |suffix| ==> FileChar(suffix[i])
  {
    TableSuffix(kind, Lower(suffix));
    hide MimeOf;
    forall i | 0 <= i < |suffix| ensures FileChar(suffix[i]) {
      assert Lower(suffix)[i] == AsciiLower(suffix[i]);
    }
  }

  lemma StemChars(kind: string, ordinal: nat, language: Option<string>)
    requires LanguageFits(kind, language)
    ensures forall i :: 0 <= i < |Stem(kind, ordinal, language)| ==> FileChar(Stem(kind, ordinal, language)[i])
    ensures |Stem(kind, ordinal, language)| > 2
  {
    hide Padded, IsTag;
    if language.Some? { TagChars(language.value); }
    assert forall i :: 0 <= i < |"caption-"| ==> FileChar("caption-"[i]);
    assert forall i :: 0 <= i < |"thumbnail-"| ==> FileChar("thumbnail-"[i]);
  }

  lemma FileNameIsName(kind: string, ordinal: nat, language: Option<string>, suffix: string)
    requires MimeOf(kind, Lower(suffix)).Some? && LanguageFits(kind, language)
    ensures var file := FileName(kind, ordinal, language, suffix);
            Name(file) && forall i :: 0 <= i < |file| ==> FileChar(file[i])
  {
    FileNameSplits(kind, ordinal, language, suffix);
    StemChars(kind, ordinal, language);
    SuffixChars(kind, suffix);
    hide MimeOf, FileName, Stem, LanguageFits, FileChar, Name;
    PlainIsName(Stem(kind, ordinal, language), suffix);
  }

  lemma PlainIsName(a: string, b: string)
    requires |a| > 2
    requires (forall i :: 0 <= i < |a| ==> FileChar(a[i])) && (forall i :: 0 <= i < |b| ==> FileChar(b[i]))
    ensures Name(a + b) && forall i :: 0 <= i < |a + b| ==> FileChar((a + b)[i])
  {
  }

  lemma UuidIsName(id: string)
    requires IsCanonicalUuid(id)
    ensures Name(id) && forall i :: 0 <= i < |id| ==> FileChar(id[i])
  {
    assert |id| == 36;
    forall i | 0 <= i < 36 ensures IsLowerHex(id[i]) || id[i] == '-' {
    }
  }

  lemma DirectoryNames()
    ensures Name("assets") && Name("thumbnails") && Name("captions")
    ensures '\\' !in "assets" && '\\' !in "thumbnails" && '\\' !in "captions"
  {
  }

  function StoredParts(assetId: string, kind: string, file: string): Path {
    ["assets", assetId, DirectoryOf(kind), file]
  }

  lemma StoredPathReads(assetId: string, kind: string, file: string)
    requires IsCanonicalUuid(assetId) && Name(file) && forall i :: 0 <= i < |file| ==> FileChar(file[i])
    ensures Clean(StoredParts(assetId, kind, file))
    ensures var path := StoredPath(assetId, kind, file);
            && path != "" && path[0] != '/' && '\\' !in path && '\0' !in path
            && PartsOf(path) == StoredParts(assetId, kind, file)
            && Join(PartsOf(path)) == path
  {
    DirectoryNames();
    UuidIsName(assetId);
    var parts := StoredParts(assetId, kind, file);
    assert Clean(parts) && parts[0] == "assets";
    assert '\\' !in file && '\\' !in assetId;
    PartsOfJoined(parts);
    CharsOfJoin(parts, '\\');
    CharsOfJoin(parts, '\0');
    assert Join(parts) == "assets" + ("/" + Join(parts[1..]));
    hide Join, PartsOf, Name, FileChar;
  }

  // -------------------------------------------------------------------- theorems

  /**
   Every stored sidecar is accepted by the download reader, which recovers its ordinal under the
   same kind, language and MIME type, as long as the path stays within 4096 characters.
   */
  lemma StagedSidecarIsRead(assetId: string, name: string, kind: string, ordinal: int, sha: string)
    requires IsCanonicalUuid(assetId) && IsHex64(sha) && Describe(name, kind, ordinal).Ok?
    ensures var s := Describe(name, kind, ordinal).value;
            s.ordinal >= 0 &&
            Registered(assetId, kind, PathOf(assetId, s), s.mime, s.language, sha)
            == if |PathOf(assetId, s)| <= MAX_PATH_CHARS then Some(ordinal) else None
  {
    hide Describe, MimeOf, FileName, Suffix, Lower, LanguageFits, StoredPath, Registered, IsCanonicalUuid, IsHex64;
    DescribedFits(name, kind, ordinal);
    var s := Describe(name, kind, ordinal).value;
    var suffix := Lower(Suffix(name));
    LowerTwice(Suffix(name));
    PrintedIsRead(assetId, kind, ordinal, suffix, s.mime, s.language, sha);
  }

  lemma PrintedIsRead(assetId: string, kind: string, ordinal: nat, suffix: string, mime: string, language: Option<string>, sha: string)
    requires IsCanonicalUuid(assetId) && IsHex64(sha)
    requires MimeOf(kind, Lower(suffix)) == Some(mime) && LanguageFits(kind, language)
    ensures var path := StoredPath(assetId, kind, FileName(kind, ordinal, language, suffix));
            Registered(assetId, kind, path, mime, language, sha) == if |path| <= MAX_PATH_CHARS then Some(ordinal) else None
  {
    assert kind == "thumbnail" || kind == "caption";
    var file := FileName(kind, ordinal, language, suffix);
    FileNameIsName(kind, ordinal, language, suffix);
    FileNameReads(kind, ordinal, language, suffix);
    hide MimeOf, FileName, OrdinalOf, IsTag, Join, PartsOf, IsCanonicalUuid, IsHex64, StoredPath, LanguageFits, Name, FileChar, DirectoryOf,
      Suffix, Lower, StoredParts, Clean;
    StoredPathReads(assetId, kind, file);
    StoredPartsAre(assetId, kind, file);
  }

  lemma StoredPartsAre(assetId: string, kind: string, file: string)
    requires Clean(StoredParts(assetId, kind, file))
    ensures var parts := StoredParts(assetId, kind, file);
            |parts| == 4 && parts[..3] == ["assets", assetId, DirectoryOf(kind)] && parts[3] == file && ".." !in parts
  {
    hide DirectoryOf, Name;
    var parts := StoredParts(assetId, kind, file);
    forall i | 0 <= i < 4 ensures parts[i] != ".." {
      NameIsNotDots(parts[i]);
    }
  }

  lemma NameIsNotDots(s: string)
    ensures Name(s) ==> s != ".."
  {
  }

  lemma ParsedStem(kind: string, stem: string)
    requires (kind == "thumbnail" || kind == "caption") && ParseStem(kind, stem).Some?
    ensures var (digits, tag) := ParseStem(kind, stem).value;
            && AllDigits(digits) && (kind == "caption" ==> IsTag(tag))
            && stem == if kind == "caption" then "caption-" + (digits + ("-" + tag)) else "thumbnail-" + digits
  {
    hide IsTag, DigitRun;
    assert |"caption"| == 7 && |"thumbnail"| == 9;
    if kind == "caption" {
      var tail := stem[8..];
      var n := DigitRun(tail);
      assert stem == "caption-" + tail;
      assert tail == tail[..n] + ("-" + tail[n + 1..]);
    } else {
      assert stem == "thumbnail-" + stem[10..];
    }
  }

  /** A name the reader accepts is a printed one, up to the case of its suffix. */
  lemma ReadNameIsPrinted(kind: string, file: string, mime: string, language: Option<string>)
    requires OrdinalOf(kind, file, mime, language).Some? && (kind == "thumbnail" || kind == "caption")
    ensures MimeOf(kind, Lower(Suffix(file))) == Some(mime) && LanguageFits(kind, language)
    ensures file == FileName(kind, OrdinalOf(kind, file, mime, language).value, language, Suffix(file))
  {
    hide MimeOf, IsTag, ParseStem, Suffix, Padded, Number;
    var suffix := Suffix(file);
    var stem := file[..|file| - |suffix|];
    assert |"caption"| == 7 && |"thumbnail"| == 9;
    ParsedStem(kind, stem);
    assert file == stem + suffix;
    var (digits, tag) := ParseStem(kind, stem).value;
    FileNameSplits(kind, Number(digits), language, suffix);
    assert Stem(kind, Number(digits), language) == stem;
  }

  /**
   The reader and the printer are inverse: a row is accepted with ordinal `n` exactly when its
   path is the one staging prints for that kind, ordinal and language, with a suffix whose
   lower-case form has the row's MIME type.
   */
  lemma ReaderInvertsPrinter(assetId: string, kind: string, path: string, mime: string, language: Option<string>, sha: string, n: nat)
    ensures Registered(assetId, kind, path, mime, language, sha) == Some(n) <==>
              && IsCanonicalUuid(assetId) && IsHex64(sha) && |path| <= MAX_PATH_CHARS && LanguageFits(kind, language)
              && exists suffix :: MimeOf(kind, Lower(suffix)) == Some(mime)
                                  && path == StoredPath(assetId, kind, FileName(kind, n, language, suffix))
  {
    hide MimeOf, FileName, OrdinalOf, IsTag, Join, PartsOf, IsCanonicalUuid, IsHex64, LanguageFits, DirectoryOf, Suffix;
    if Registered(assetId, kind, path, mime, language, sha) == Some(n) {
      var parts := PartsOf(path);
      var file := parts[3];
      ReadNameIsPrinted(kind, file, mime, language);
      assert parts == ["assets", assetId, DirectoryOf(kind), file];
      assert MimeOf(kind, Lower(Suffix(file))) == Some(mime) && path == StoredPath(assetId, kind, FileName(kind, n, language, Suffix(file)));
    }
    if IsCanonicalUuid(assetId) && IsHex64(sha) && |path| <= MAX_PATH_CHARS && LanguageFits(kind, language) {
      if suffix :| MimeOf(kind, Lower(suffix)) == Some(mime) && path == StoredPath(assetId, kind, FileName(kind, n, language, suffix)) {
        PrintedIsRead(assetId, kind, n, suffix, mime, language, sha);
      }
    }
  }

  lemma FileNamesApart(kind: string, n: nat, m: nat, language: Option<string>, other: Option<string>, suffix: string, suffix': string)
    requires MimeOf(kind, Lower(suffix)).Some? && MimeOf(kind, Lower(suffix')).Some?
    requires LanguageFits(kind, language) && LanguageFits(kind, other)
    requires FileName(kind, n, language, suffix) == FileName(kind, m, other, suffix')
    ensures n == m
  {
    assert |"caption"| == 7 && |"thumbnail"| == 9;
    FileNameReads(kind, n, language, suffix);
    FileNameReads(kind, m, other, suffix');
    hide MimeOf, FileName, IsTag, ParseStem, Suffix, Number, Padded;
  }

  lemma SameDirectorySameKind(a: string, b: string)
    requires (a == "thumbnail" || a == "caption") && (b == "thumbnail" || b == "caption")
    requires DirectoryOf(a) == DirectoryOf(b)
    ensures a == b
  {
    assert |"thumbnails"| == 10 && |"captions"| == 8 && |"thumbnail"| == 9 && |"caption"| == 7;
  }

  /** The stored file name of a described sidecar. */
  function StoredName(s: Sidecar): string
    requires s.ordinal >= 0
  {
    FileName(s.kind, s.ordinal, s.language, Lower(Suffix(s.name)))
  }

  lemma MimeKinds(kind: string, suffix: string)
    requires MimeOf(kind, suffix).Some?
    ensures kind == "thumbnail" || kind == "caption"
  {
    hide ThumbnailMime, CaptionMime;
  }

  lemma LowerTwice(s: string)
    ensures Lower(Lower(s)) == Lower(s)
  {
  }

  lemma DescribedName(s: Sidecar)
    requires Describe(s.name, s.kind, s.ordinal) == Ok(s)
    ensures (s.kind == "thumbnail" || s.kind == "caption") && s.ordinal >= 0 && LanguageFits(s.kind, s.language)
    ensures MimeOf(s.kind, Lower(Lower(Suffix(s.name)))).Some? && Name(StoredName(s))
    ensures forall i :: 0 <= i < |StoredName(s)| ==> FileChar(StoredName(s)[i])
  {
    hide Describe, MimeOf, Name, FileName, Suffix, Lower, LanguageFits, FileChar;
    DescribedFits(s.name, s.kind, s.ordinal);
    var suffix := Lower(Suffix(s.name));
    LowerTwice(Suffix(s.name));
    MimeKinds(s.kind, suffix);
    FileNameIsName(s.kind, s.ordinal, s.language, suffix);
  }

  /** Two sidecars of one asset that differ in kind or ordinal are stored at different paths. */
  lemma StoredPathsApart(assetId: string, a: Sidecar, b: Sidecar)
    requires IsCanonicalUuid(assetId) && Describe(a.name, a.kind, a.ordinal) == Ok(a) && Describe(b.name, b.kind, b.ordinal) == Ok(b)
    requires a.kind != b.kind || a.ordinal != b.ordinal
    ensures a.ordinal >= 0 && b.ordinal >= 0 && PathOf(assetId, a) != PathOf(assetId, b)
  {
    DescribedName(a);
    DescribedName(b);
    StoredPathReads(assetId, a.kind, StoredName(a));
    StoredPathReads(assetId, b.kind, StoredName(b));
    assert PathOf(assetId, a) == StoredPath(assetId, a.kind, StoredName(a));
    assert PathOf(assetId, b) == StoredPath(assetId, b.kind, StoredName(b));
    hide Describe, MimeOf, FileName, LanguageFits, IsCanonicalUuid, PartsOf, Join, Name, FileChar, StoredPath, DirectoryOf, PathOf, Lower, Suffix;
    if PathOf(assetId, a) == PathOf(assetId, b) {
      var p, q := StoredParts(assetId, a.kind, StoredName(a)), StoredParts(assetId, b.kind, StoredName(b));
      assert p == q;
      assert p[2] == DirectoryOf(a.kind) && q[2] == DirectoryOf(b.kind) && p[3] == StoredName(a) && q[3] == StoredName(b);
      SameDirectorySameKind(a.kind, b.kind);
      FileNamesApart(a.kind, a.ordinal, b.ordinal, a.language, b.language, Lower(Suffix(a.name)), Lower(Suffix(b.name)));
      assert false;
    }
  }

  // ---------------------------------------------------------- one download's sidecars

  /** A sidecar as the adapter declared it, with its file's identity and size. */
  datatype Produced = Produced(sidecar: Sidecar, identity: (int, int), size: nat)

  /** How many of the first `k` files are of a kind. */
  function CountTo(files: seq<Produced>, kind: string, k: nat): nat
    requires k <= |files|
  {
    if k == 0 then 0 else CountTo(files, kind, k - 1) + if files[k - 1].sidecar.kind == kind then 1 else 0
  }

  /** What is demanded of the first `k` sidecars of an asset as a whole. */
  ghost predicate AcceptableTo(source: (int, int), maxSize: nat, files: seq<Produced>, k: nat)
    requires k <= |files|
  {
    && (forall i :: 0 <= i < k ==> Sound(source, maxSize, files[i]))
    && (forall i, j :: 0 <= i < j < k ==> Unlike(files[i], files[j]))
    && CountTo(files, "thumbnail", k) <= MAX_THUMBNAILS && CountTo(files, "caption", k) <= MAX_CAPTIONS
  }

  ghost predicate Acceptable(source: (int, int), maxSize: nat, files: seq<Produced>) {
    AcceptableTo(source, maxSize, files, |files|)
  }

  predicate Sound(source: (int, int), maxSize: nat, f: Produced) {
    Describe(f.sidecar.name, f.sidecar.kind, f.sidecar.ordinal) == Ok(f.sidecar) && f.identity != source && f.size <= maxSize
  }

  predicate Unlike(f: Produced, g: Produced) {
    f.identity != g.identity && (f.sidecar.kind == g.sidecar.kind ==> f.sidecar.ordinal != g.sidecar.ordinal)
  }

  lemma {:induction false} CountMonotone(files: seq<Produced>, kind: string, k: nat, n: nat)
    requires k <= n <= |files|
    ensures CountTo(files, kind, k) <= CountTo(files, kind, n)
  {
    if k < n { CountMonotone(files, kind, k, n - 1); }
  }

  lemma AcceptableBegins(source: (int, int), maxSize: nat, files: seq<Produced>, k: nat)
    requires k <= |files| && Acceptable(source, maxSize, files)
    ensures AcceptableTo(source, maxSize, files, k)
  {
    hide Sound, Unlike;
    CountMonotone(files, "thumbnail", k, |files|);
    CountMonotone(files, "caption", k, |files|);
  }

  function OrdinalsTo(files: seq<Produced>, kind: string, k: nat): set<int>
    requires k <= |files|
  {
    set i | 0 <= i < k && files[i].sidecar.kind == kind :: files[i].sidecar.ordinal
  }

  function IdentitiesTo(source: (int, int), files: seq<Produced>, k: nat): set<(int, int)>
    requires k <= |files|
  {
    {source} + set i | 0 <= i < k :: files[i].identity
  }

  /** The next file, against everything accepted so far. */
  predicate NextFits(source: (int, int), maxSize: nat, files: seq<Produced>, k: nat)
    requires k < |files|
  {
    var f, s := files[k], files[k].sidecar;
    && Describe(s.name, s.kind, s.ordinal) == Ok(s)
    && s.ordinal !in OrdinalsTo(files, s.kind, k)
    && CountTo(files, s.kind, k) + 1 <= (if s.kind == "thumbnail" then MAX_THUMBNAILS else MAX_CAPTIONS)
    && f.identity !in IdentitiesTo(source, files, k) && f.size <= maxSize
  }

  lemma NextIsUnlike(source: (int, int), files: seq<Produced>, k: nat)
    requires k < |files|
    ensures (forall i :: 0 <= i < k ==> Unlike(files[i], files[k])) && files[k].identity != source
            <==> files[k].sidecar.ordinal !in OrdinalsTo(files, files[k].sidecar.kind, k) && files[k].identity !in IdentitiesTo(source, files, k)
  {
  }

  lemma AcceptableParts(source: (int, int), maxSize: nat, files: seq<Produced>, k: nat)
    requires k < |files| && AcceptableTo(source, maxSize, files, k)
    ensures AcceptableTo(source, maxSize, files, k + 1) <==>
              && Sound(source, maxSize, files[k]) && (forall i :: 0 <= i < k ==> Unlike(files[i], files[k]))
              && CountTo(files, "thumbnail", k + 1) <= MAX_THUMBNAILS && CountTo(files, "caption", k + 1) <= MAX_CAPTIONS
  {
    hide Sound, Unlike, CountTo;
  }

  lemma AcceptableExtends(source: (int, int), maxSize: nat, files: seq<Produced>, k: nat)
    requires k < |files| && AcceptableTo(source, maxSize, files, k)
    ensures AcceptableTo(source, maxSize, files, k + 1) <==> NextFits(source, maxSize, files, k)
  {
    var s := files[k].sidecar;
    assert CountTo(files, "thumbnail", k) <= MAX_THUMBNAILS && CountTo(files, "caption", k) <= MAX_CAPTIONS;
    hide Describe, Unlike, OrdinalsTo, IdentitiesTo, LanguageFits, StoredName, Name, FileChar, MimeOf, Lower, Suffix, CountTo, AcceptableTo;
    AcceptableParts(source, maxSize, files, k);
    NextIsUnlike(source, files, k);
    SeenGrow(source, files, k);
    assert |"caption"| == 7 && |"thumbnail"| == 9;
    if Describe(s.name, s.kind, s.ordinal) == Ok(s) {
      DescribedName(s);
    }
  }

  lemma SeenGrow(source: (int, int), files: seq<Produced>, k: nat)
    requires k < |files|
    ensures forall kind :: OrdinalsTo(files, kind, k + 1)
                           == OrdinalsTo(files, kind, k) + if files[k].sidecar.kind == kind then {files[k].sidecar.ordinal} else {}
    ensures IdentitiesTo(source, files, k + 1) == IdentitiesTo(source, files, k) + {files[k].identity}
    ensures forall kind :: CountTo(files, kind, k + 1) == CountTo(files, kind, k) + if files[k].sidecar.kind == kind then 1 else 0
  {
  }

  lemma NothingSeen(source: (int, int), maxSize: nat, files: seq<Produced>)
    ensures forall kind :: OrdinalsTo(files, kind, 0) == {}
    ensures IdentitiesTo(source, files, 0) == {source} && AcceptableTo(source, maxSize, files, 0)
  {
  }

  /** `_validate_auxiliary_files`. */
  method ValidateAuxiliaryFiles(source: (int, int), maxSize: nat, files: seq<Produced>) returns (r: Result<seq<Produced>, SidecarError>)
    ensures r.Ok? <==> Acceptable(source, maxSize, files)
    ensures r.Ok? ==> r.value == files
  {
    hide Describe, AcceptableTo, OrdinalsTo, IdentitiesTo, CountTo;
    var thumbnails, captions := 0, 0;
    var thumbnailOrdinals: set<int> := {};
    var captionOrdinals: set<int> := {};
    var identities := {source};
    var normalized: seq<Produced> := [];
    NothingSeen(source, maxSize, files);
    NothingCounted(files);
    assert |"caption"| == 7 && |"thumbnail"| == 9;
    for k := 0 to |files|
      invariant normalized == files[..k] && AcceptableTo(source, maxSize, files, k)
      invariant thumbnails == CountTo(files, "thumbnail", k) && captions == CountTo(files, "caption", k)
      invariant thumbnailOrdinals == OrdinalsTo(files, "thumbnail", k) && captionOrdinals == OrdinalsTo(files, "caption", k)
      invariant identities == IdentitiesTo(source, files, k)
    {
      var f, s := files[k], files[k].sidecar;
      AcceptableExtends(source, maxSize, files, k);
      SeenGrow(source, files, k);
      if Acceptable(source, maxSize, files) { AcceptableBegins(source, maxSize, files, k + 1); }
      if s.kind != "thumbnail" && s.kind != "caption" {
        OtherKindsFail(s.name, s.kind, s.ordinal);
        return Err(KindNotAllowed);
      }
      var described := Describe(s.name, s.kind, s.ordinal);
      if described.Err? {
        return Err(described.error);
      }
      if described.value.mime != s.mime || described.value.language != s.language {
        return Err(MetadataMismatch);
      }
      DescribedKeepsNames(s.name, s.kind, s.ordinal);
      if s.ordinal in (if s.kind == "thumbnail" then thumbnailOrdinals else captionOrdinals) {
        return Err(OrdinalRepeated);
      }
      if s.kind == "thumbnail" {
        thumbnailOrdinals := thumbnailOrdinals + {s.ordinal};
        thumbnails := thumbnails + 1;
      } else {
        captionOrdinals := captionOrdinals + {s.ordinal};
        captions := captions + 1;
      }
      if (if s.kind == "thumbnail" then thumbnails > MAX_THUMBNAILS else captions > MAX_CAPTIONS) {
        return Err(CountExceeded);
      }
      if f.identity in identities {
        return Err(FileRepeated);
      }
      identities := identities + {f.identity};
      if f.size > maxSize {
        return Err(FileTooLarge);
      }
      normalized := normalized + [f];
    }
    assert files[..|files|] == files;
    return Ok(normalized);
  }

  lemma NothingCounted(files: seq<Produced>)
    ensures CountTo(files, "thumbnail", 0) == 0 && CountTo(files, "caption", 0) == 0
  {
  }

  lemma DescribedKeepsNames(name: string, kind: string, ordinal: int)
    ensures var d := Describe(name, kind, ordinal);
            d.Ok? ==> d.value == Sidecar(name, kind, ordinal, d.value.mime, d.value.language)
  {
    hide ThumbnailMime, CaptionMime, IsTag, Contains, CaptionLanguage, Suffix, Lower, Dashed;
  }

  lemma OtherKindsFail(name: string, kind: string, ordinal: int)
    requires kind != "thumbnail" && kind != "caption"
    ensures Describe(name, kind, ordinal).Err?
  {
  }

  /** Accepted sidecars are stored under pairwise different paths. */
  lemma AcceptedPathsDistinct(assetId: string, source: (int, int), maxSize: nat, files: seq<Produced>, i: nat, j: nat)
    requires IsCanonicalUuid(assetId) && Acceptable(source, maxSize, files) && i < j < |files|
    ensures files[i].sidecar.ordinal >= 0 && files[j].sidecar.ordinal >= 0
    ensures PathOf(assetId, files[i].sidecar) != PathOf(assetId, files[j].sidecar)
  {
    hide Describe, PathOf, CountTo, IsCanonicalUuid;
    assert Sound(source, maxSize, files[i]) && Sound(source, maxSize, files[j]) && Unlike(files[i], files[j]);
    StoredPathsApart(assetId, files[i].sidecar, files[j].sidecar);
  }
}
