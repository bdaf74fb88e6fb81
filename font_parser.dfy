/** Metadata extraction (src/utils/fontParser.ts): name sanitizing, the
    extension classifier, the localized name-table choice, the sorted code
    point list, and the success / fallback / reject decision of
    `parseFontFile`. The OpenType parser is an oracle: its verdict on the bytes
    is the `ParsedFont` argument. */
module FontParser {
  import opened Common
  import opened FontTypes
  import Hasher

  // ---------------------------------------------------------------------------
  // sanitizeString
  // ---------------------------------------------------------------------------

  const MaxNameLength: nat := 500

  /** Code points 0-31 and 127, removed by `/[\x00-\x1F\x7F]/g`. */
  predicate IsControl(c: char) {
    c as int <= 31 || c as int == 127
  }

  /** The characters `String.prototype.trim` removes: ECMAScript WhiteSpace
      and LineTerminator. */
  predicate IsJsWhitespace(c: char) {
    || c == '\t' || c == '\n' || c == '\U{000B}' || c == '\U{000C}' || c == '\r'
    || c == ' ' || c == '\U{00A0}' || c == '\U{1680}' || ('\U{2000}' <= c <= '\U{200A}')
    || c == '\U{2028}' || c == '\U{2029}' || c == '\U{202F}' || c == '\U{205F}'
    || c == '\U{3000}' || c == '\U{FEFF}'
  }

  /** A character the replacement keeps. */
  predicate Printable(c: char) {
    !IsControl(c)
  }

  /** The `/[\x00-\x1F\x7F]/g` replacement: the input with its control
      characters removed, everything else kept in order. */
  function StripControl(s: string): (r: string)
    ensures r == Filter(s, Printable)
    ensures forall i :: 0 <= i < |r| ==> !IsControl(r[i])
    ensures forall c :: c in r <==> c in s && !IsControl(c)
  {
    var r := Filter(s, Printable);
    assert forall i :: 0 <= i < |r| ==> r[i] in r;
    r
  }

  /** Removing control characters drops exactly them: a control character
      between two runs of other characters vanishes and the runs meet. */
  lemma StripControlSplices(a: string, c: char, b: string)
    requires IsControl(c)
    requires forall i :: 0 <= i < |a| ==> !IsControl(a[i])
    requires forall i :: 0 <= i < |b| ==> !IsControl(b[i])
    ensures StripControl(a + [c] + b) == a + b
  {
    var fc := Filter([c], Printable);
    assert c !in fc;
    assert fc == [];
    FilterAppend(a + [c], b, Printable);
    FilterAppend(a, [c], Printable);
    FilterAllPass(a, Printable);
    FilterAllPass(b, Printable);
    assert Filter(a + [c], Printable) == a;
  }

  /** Drops leading whitespace. */
  function TrimStart(s: string): (r: string)
    ensures EndsWith(s, r)
    ensures r == [] || !IsJsWhitespace(r[0])
    ensures forall i :: 0 <= i < |s| - |r| ==> IsJsWhitespace(s[i])
    decreases |s|
  {
    if s != [] && IsJsWhitespace(s[0]) then
      var r := TrimStart(s[1..]);
      assert s[|s| - |r|..] == s[1..][|s| - 1 - |r|..];
      r
    else s
  }

  /** Drops trailing whitespace. */
  function TrimEnd(s: string): (r: string)
    ensures StartsWith(s, r)
    ensures r == [] || !IsJsWhitespace(r[|r| - 1])
    ensures forall i :: |r| <= i < |s| ==> IsJsWhitespace(s[i])
    decreases |s|
  {
    if s != [] && IsJsWhitespace(s[|s| - 1]) then
      var r := TrimEnd(s[..|s| - 1]);
      assert s[..|r|] == s[..|s| - 1][..|r|];
      r
    else s
  }

  /** `str.trim()`: the leading whitespace and then the trailing whitespace
      removed, so no whitespace is left at either end. */
  function Trim(s: string): (r: string)
    ensures r == TrimEnd(TrimStart(s))
    ensures r == [] || (!IsJsWhitespace(r[0]) && !IsJsWhitespace(r[|r| - 1]))
    ensures forall c :: c in r ==> c in s
  {
    var a := TrimStart(s);
    var r := TrimEnd(a);
    assert r == a[..|r|] && a == s[|s| - |a|..];
    assert forall i :: 0 <= i < |r| ==> r[i] == s[|s| - |a| + i];
    r
  }

  predicate AllWhitespace(s: string) {
    forall i :: 0 <= i < |s| ==> IsJsWhitespace(s[i])
  }

  /** Leading whitespace in front of text that starts with non-whitespace is
      exactly what `TrimStart` drops. */
  lemma TrimStartOfPadded(pre: string, rest: string)
    requires AllWhitespace(pre)
    requires rest == [] || !IsJsWhitespace(rest[0])
    ensures TrimStart(pre + rest) == rest
  {
    var s := pre + rest;
    var r := TrimStart(s);
    assert forall i :: 0 <= i < |pre| ==> IsJsWhitespace(s[i]);
    assert rest != [] ==> !IsJsWhitespace(s[|pre|]);
    assert r != [] ==> r[0] == s[|s| - |r|];
    assert |r| == |rest|;
    assert r == s[|s| - |r|..] == rest;
  }

  /** Trailing whitespace behind text that ends with non-whitespace is
      exactly what `TrimEnd` drops. */
  lemma TrimEndOfPadded(rest: string, post: string)
    requires AllWhitespace(post)
    requires rest == [] || !IsJsWhitespace(rest[|rest| - 1])
    ensures TrimEnd(rest + post) == rest
  {
    var s := rest + post;
    var r := TrimEnd(s);
    assert forall i :: |rest| <= i < |s| ==> IsJsWhitespace(s[i]);
    assert rest != [] ==> !IsJsWhitespace(s[|rest| - 1]);
    assert r != [] ==> r[|r| - 1] == s[|r| - 1];
    assert |r| == |rest|;
    assert r == s[..|r|] == rest;
  }

  /** `trim()` removes exactly the whitespace padding around the text. */
  lemma TrimDropsPadding(pre: string, core: string, post: string)
    requires AllWhitespace(pre) && AllWhitespace(post)
    requires core == [] || (!IsJsWhitespace(core[0]) && !IsJsWhitespace(core[|core| - 1]))
    ensures Trim(pre + core + post) == core
  {
    if core == [] {
      assert pre + core + post == (pre + post) + [];
      TrimStartOfPadded(pre + post, []);
    } else {
      assert pre + core + post == pre + (core + post);
      TrimStartOfPadded(pre, core + post);
      TrimEndOfPadded(core, post);
    }
  }

  /** A display string as every sanitized name is: no control character, at
      most 500 characters, no leading whitespace. */
  predicate IsSanitized(s: string) {
    && |s| <= MaxNameLength
    && (forall i :: 0 <= i < |s| ==> !IsControl(s[i]))
    && (s == [] || !IsJsWhitespace(s[0]))
  }

  /** `sanitizeString`: strip control characters, trim, keep the first 500
      characters. The output keeps only characters of the input. */
  function SanitizeString(s: string): (r: string)
    ensures IsSanitized(r)
    ensures s == "" ==> r == ""
    ensures s != "" ==> r == (var t := Trim(StripControl(s)); t[..Min(|t|, MaxNameLength)])
    ensures forall c :: c in r ==> c in s
  {
    if s == "" then ""
    else
      var t := Trim(StripControl(s));
      var r := t[..Min(|t|, MaxNameLength)];
      assert forall i :: 0 <= i < |r| ==> r[i] == t[i] && t[i] in t;
      r
  }

  /** A name that is already clean comes out of `sanitizeString` unchanged. */
  lemma SanitizeKeepsCleanName(s: string)
    requires IsSanitized(s)
    requires s == [] || !IsJsWhitespace(s[|s| - 1])
    ensures SanitizeString(s) == s
  {
    if s != "" {
      FilterAllPass(s, Printable);
      assert StripControl(s) == s;
      assert TrimStart(s) == s;
      assert TrimEnd(s) == s;
    }
  }

  /** A name padded with whitespace (control whitespace such as tabs and
      line breaks included) comes out as the name itself. */
  lemma SanitizeTrimsPadding(pre: string, core: string, post: string)
    requires AllWhitespace(pre) && AllWhitespace(post)
    requires core != [] && !IsJsWhitespace(core[0]) && !IsJsWhitespace(core[|core| - 1])
    requires |core| <= MaxNameLength
    requires forall i :: 0 <= i < |core| ==> !IsControl(core[i])
    ensures SanitizeString(pre + core + post) == core
  {
    var sp, sq := StripControl(pre), StripControl(post);
    StripKeepsWhitespace(pre);
    StripKeepsWhitespace(post);
    StripAroundClean(pre, core, post);
    TrimDropsPadding(sp, core, sq);
    SanitizeShortText(pre + core + post, core);
  }

  /** When stripping and trimming leave at most 500 characters, that text is
      the sanitized name. */
  lemma SanitizeShortText(s: string, t: string)
    requires s != "" && Trim(StripControl(s)) == t && |t| <= MaxNameLength
    ensures SanitizeString(s) == t
  {
    assert t[..Min(|t|, MaxNameLength)] == t;
  }

  /** What is left of whitespace after the replacement is whitespace. */
  lemma StripKeepsWhitespace(w: string)
    requires AllWhitespace(w)
    ensures AllWhitespace(StripControl(w))
  {
    var sw := StripControl(w);
    forall i | 0 <= i < |sw| ensures IsJsWhitespace(sw[i]) {
      assert sw[i] in sw;
    }
  }

  /** Text without control characters passes the replacement untouched. */
  lemma StripAroundClean(pre: string, core: string, post: string)
    requires forall i :: 0 <= i < |core| ==> !IsControl(core[i])
    ensures StripControl(pre + core + post) == StripControl(pre) + core + StripControl(post)
  {
    FilterAppend(pre + core, post, Printable);
    FilterAppend(pre, core, Printable);
    FilterAllPass(core, Printable);
  }

  /** The 500-character cut happens after trimming: when the cut ends on
      whitespace the output ends with whitespace, and a second pass removes
      it, so sanitizing is not idempotent. */
  lemma CutAfterTrimLeavesTrailingSpace(s: string)
    requires s != ""
    requires |Trim(StripControl(s))| > MaxNameLength
    requires IsJsWhitespace(Trim(StripControl(s))[MaxNameLength - 1])
    ensures var once := SanitizeString(s);
      |once| == MaxNameLength && IsJsWhitespace(once[|once| - 1])
      && |SanitizeString(once)| < |once|
  {
    var once := SanitizeString(s);
    assert once == Trim(StripControl(s))[..MaxNameLength];
    SanitizeSanitized(once);
    TrimEndShortens(once);
  }

  /** On a string that is already sanitized, only the end trim does anything. */
  lemma SanitizeSanitized(s: string)
    requires s != "" && IsSanitized(s)
    ensures SanitizeString(s) == TrimEnd(s)
  {
    FilterAllPass(s, Printable);
    assert StripControl(s) == s;
    assert TrimStart(s) == s;
  }

  /** Trailing whitespace is removed. */
  lemma TrimEndShortens(s: string)
    requires s != "" && IsJsWhitespace(s[|s| - 1])
    ensures |TrimEnd(s)| < |s|
  {
  }

  // ---------------------------------------------------------------------------
  // getFontFormat
  // ---------------------------------------------------------------------------

  /** The extensions the classifier knows, each mapped to its upper-case tag. */
  const Extensions: seq<string> :=
    ["ttf", "otf", "woff", "woff2", "afm", "fea", "pfa", "pfb", "sfd", "pt3", "t42", "tfm", "vfb"]

  /** Formats the browser cannot render; a failed parse of these is rejected. */
  const MetadataOnlyFormats: seq<string> :=
    ["AFM", "FEA", "PFA", "PFB", "SFD", "PT3", "T42", "TFM", "VFB"]

  /** The lower-cased text after the last dot (the whole name if it has none). */
  function Extension(filename: string): string {
    ToLower(LastSegment(filename, '.'))
  }

  /** The tag `getFontFormat` returns for each of `Extensions`, position by
      position. */
  const Tags: seq<string> :=
    ["TTF", "OTF", "WOFF", "WOFF2", "AFM", "FEA", "PFA", "PFB", "SFD", "PT3", "T42", "TFM", "VFB"]

  /** The `if (ext === ...) return ...` chain of `getFontFormat`: the tag of
      the first extension equal to `ext`, else `UNKNOWN`. */
  function TagOf(ext: string): (r: string)
    ensures r == "UNKNOWN" <==> ext !in Extensions
  {
    if ext in Extensions then
      TagsAreShort();
      Tags[FirstIndex(Extensions, ext)]
    else "UNKNOWN"
  }

  lemma ExtensionsAreNonEmpty()
    ensures forall e :: e in Extensions ==> |e| > 0
  {
  }

  lemma TagsAreShort()
    ensures |Tags| == |Extensions|
    ensures forall k :: 0 <= k < |Tags| ==> |Tags[k]| <= 5
  {
  }

  /** `getFontFormat`: one of the 13 tags for a known extension, `UNKNOWN`
      for anything else. */
  function GetFontFormat(filename: string): (r: string)
    ensures r == "UNKNOWN" <==> Extension(filename) !in Extensions
  {
    TagOf(Extension(filename))
  }

  /** Each tag spells its extension with the letters raised to upper case. */
  lemma TagSpellsExtension(ext: string)
    requires ext in Extensions
    ensures |TagOf(ext)| == |ext|
    ensures forall i :: 0 <= i < |ext| ==> TagOf(ext)[i] == UpperChar(ext[i])
  {
    TagsSpellExtensions();
  }

  lemma TagsSpellExtensions()
    ensures |Tags| == |Extensions|
    ensures forall k :: 0 <= k < |Tags| ==>
      |Tags[k]| == |Extensions[k]| && forall i :: 0 <= i < |Tags[k]| ==> Tags[k][i] == UpperChar(Extensions[k][i])
  {
  }

  /** The tag of a known extension is that extension in upper case. */
  lemma FormatIsUpperCaseExtension(filename: string)
    requires Extension(filename) in Extensions
    ensures GetFontFormat(filename) == ToUpper(Extension(filename))
  {
    TagSpellsExtension(Extension(filename));
  }

  // ---------------------------------------------------------------------------
  // getFontName
  // ---------------------------------------------------------------------------

  /** A localized name table: language tag and value, in property order. */
  type NameTable = seq<(string, string)>

  /** `table[lang]`: the value stored under `lang`, if any. */
  function LookupLang(t: NameTable, lang: string): (r: Option<string>)
    ensures r.Some? ==> (lang, r.value) in t
    ensures r.None? ==> forall i :: 0 <= i < |t| ==> t[i].0 != lang
    decreases |t|
  {
    if t == [] then None
    else if t[0].0 == lang then Some(t[0].1)
    else LookupLang(t[1..], lang)
  }

  /** A present, non-empty string: what `||` accepts. */
  predicate Truthy(o: Option<string>) {
    o.Some? && o.value != ""
  }

  /** `a || b || ... || ''`. */
  function FirstTruthy(options: seq<Option<string>>): (r: string)
    decreases |options|
  {
    if options == [] then ""
    else if Truthy(options[0]) then options[0].value
    else FirstTruthy(options[1..])
  }

  lemma FirstTruthyOfThree(a: Option<string>, b: Option<string>, c: Option<string>)
    ensures FirstTruthy([a, b, c])
      == if Truthy(a) then a.value else if Truthy(b) then b.value else if Truthy(c) then c.value else ""
  {
    assert [a, b, c][1..] == [b, c];
    assert [b, c][1..] == [c];
    assert [c][1..] == [];
    assert FirstTruthy([c]) == if Truthy(c) then c.value else "";
    assert FirstTruthy([b, c]) == if Truthy(b) then b.value else FirstTruthy([c]);
  }

  /** `getFontName` on the table stored under one name key: the English
      entry, else the US-English entry, else the first entry, sanitized. An
      empty string counts as missing at each step. */
  function GetFontName(table: Option<NameTable>): (r: string)
    ensures IsSanitized(r)
    ensures table.None? ==> r == ""
    ensures table.Some? ==>
      var en := LookupLang(table.value, "en");
      var us := LookupLang(table.value, "en-US");
      (Truthy(en) ==> r == SanitizeString(en.value))
      && (!Truthy(en) && Truthy(us) ==> r == SanitizeString(us.value))
      && (!Truthy(en) && !Truthy(us) && table.value != [] ==> r == SanitizeString(table.value[0].1))
      && (!Truthy(en) && !Truthy(us) && table.value == [] ==> r == "")
  {
    match table
    case None => ""
    case Some(t) =>
      var first := if |t| > 0 then Some(t[0].1) else None;
      var raw := FirstTruthy([LookupLang(t, "en"), LookupLang(t, "en-US"), first]);
      FirstTruthyOfThree(LookupLang(t, "en"), LookupLang(t, "en-US"), first);
      SanitizeString(raw)
  }

  // ---------------------------------------------------------------------------
  // getSupportedChars
  // ---------------------------------------------------------------------------

  predicate StrictlyIncreasing(s: seq<nat>) {
    forall i, j :: 0 <= i < j < |s| ==> s[i] < s[j]
  }

  /** Counting up from a lower bound `k` of `s` reaches its least element no
      later than at `x`, a member. */
  lemma {:induction false} LeastFrom(s: set<nat>, x: nat, k: nat)
    requires x in s && k <= x
    requires forall y :: y in s ==> k <= y
    ensures exists m :: m in s && forall y :: y in s ==> m <= y
    decreases x - k
  {
    if k in s {
      assert forall y :: y in s ==> k <= y;
    } else {
      LeastFrom(s, x, k + 1);
    }
  }

  /** Every non-empty set of naturals has a least element. */
  lemma MinExists(s: set<nat>)
    requires s != {}
    ensures exists m :: m in s && forall y :: y in s ==> m <= y
  {
    var x :| x in s;
    LeastFrom(s, x, 0);
  }

  /** The least element of a non-empty set. */
  function MinOf(s: set<nat>): (m: nat)
    requires s != {}
    ensures m in s && forall y :: y in s ==> m <= y
  {
    MinExists(s);
    var m :| m in s && forall y :: y in s ==> m <= y;
    m
  }

  /** The elements of `s` in ascending order. */
  function SortedAscending(s: set<nat>): (r: seq<nat>)
    ensures StrictlyIncreasing(r)
    ensures forall x :: x in r <==> x in s
    ensures |r| == |s|
    decreases |s|
  {
    if s == {} then []
    else
      var m := MinOf(s);
      [m] + SortedAscending(s - {m})
  }

  /** `getSupportedChars`: the keys of the cmap's glyph index map as numbers in
      ascending order; `None` stands for an absent map or a failed read. */
  function GetSupportedChars(cmap: Option<set<nat>>): (r: seq<nat>)
    ensures StrictlyIncreasing(r)
    ensures cmap.None? ==> r == []
    ensures cmap.Some? ==> |r| == |cmap.value| && forall x :: x in r <==> x in cmap.value
  {
    match cmap
    case None => []
    case Some(keys) => SortedAscending(keys)
  }

  // ---------------------------------------------------------------------------
  // parseFontFile
  // ---------------------------------------------------------------------------

  /** The verdict of `opentype.parse` on the file's bytes. `names` maps each
      name key (`fontFamily`, `fullName`, ...) to its localized table; `cmap`
      is the set of code points of the glyph index map. */
  datatype ParsedFont =
    | ParsedOk(names: map<string, NameTable>, numGlyphs: nat, cmap: Option<set<nat>>)
    | ParseFailed

  /** Why a parse promise was rejected: an `Error` with its message, or some
      other value (the `FileReader` error event). */
  datatype Reason = ErrorObject(message: string) | NonError

  /** A settled parse promise. */
  datatype Settled = Fulfilled(font: FontData) | Rejected(reason: Reason)

  /** A `FontFace` added to `document.fonts`: its family name and source URL. */
  datatype FaceRegistration = FaceRegistration(family: string, url: string)

  /** What one call of `parseFontFile` yields: the settled promise and the font
      face it registered for rendering, if any. */
  datatype Extraction = Extraction(outcome: Settled, registered: Option<FaceRegistration>)

  function NameOf(p: ParsedFont, key: string): string
    requires p.ParsedOk?
  {
    GetFontName(if key in p.names then Some(p.names[key]) else None)
  }

  /** The rejection message for a metadata-only format. */
  function UnsupportedMessage(format: string): string {
    "Format " + format + " not supported"
  }

  /** An id built as `head + part + tail` starts with `head` and contains `part`. */
  lemma IdParts(head: string, part: string, tail: string)
    ensures StartsWith(head + part + tail, head)
    ensures Contains(head + part + tail, part)
  {
    var id := head + part + tail;
    assert id[..|head|] == head;
    assert OccursAt(id, part, |head|);
    ContainsAt(id, part);
  }

  /** The fallback id `<name>-<size>-<now>` starts with the name and
      contains the size. */
  lemma FallbackIdShape(name: string, size: string, stamp: string)
    ensures var id := name + "-" + size + "-" + stamp;
      StartsWith(id, name) && Contains(id, size)
  {
    var id := name + "-" + size + "-" + stamp;
    IdParts(name + "-", size, "-" + stamp);
    assert id == (name + "-") + size + ("-" + stamp);
    assert id[..|name|] == name;
  }

  /** The parsed id `<postscriptName> -<size> -<now> ` starts with the
      PostScript name and contains the size. */
  lemma ParsedIdShape(postscriptName: string, size: string, stamp: string)
    ensures var id := postscriptName + " -" + size + " -" + stamp + " ";
      StartsWith(id, postscriptName) && Contains(id, size)
  {
    var id := postscriptName + " -" + size + " -" + stamp + " ";
    IdParts(postscriptName + " -", size, " -" + stamp + " ");
    assert id == (postscriptName + " -") + size + (" -" + stamp + " ");
    assert id[..|postscriptName|] == postscriptName;
  }

  /** The record built when the parser fails on a renderable format: every
      name is the file name, and the id is `<name>-<size>-<now>`. */
  function FallbackRecord(file: File, fmt: string, url: string, now: nat, hash: string): (f: FontData)
    ensures f.tags == [] && f.file == Some(file) && f.url == url && f.hash == Some(hash)
    ensures f.metadata.format == fmt
    ensures var m := f.metadata;
      && m.family == file.name && m.fullName == file.name && m.postscriptName == file.name
      && m.subfamily == "Regular" && m.glyphCount == Some(0) && m.version.None?
      && m.author == Some("") && m.copyright == Some("") && m.license == Some("")
      && m.supportedChars == Some([])
    ensures StartsWith(f.id, file.name) && Contains(f.id, NatToDecimal(file.Size()))
  {
    var meta := FontMetadata(file.name, "Regular", file.name, file.name, None, fmt, Some(0),
                             Some([]), Some(""), Some(""), Some(""));
    var size, stamp := NatToDecimal(file.Size()), NatToDecimal(now);
    FallbackIdShape(file.name, size, stamp);
    var id := file.name + "-" + size + "-" + stamp;
    FontData(id, Some(file), url, meta, [], Some(hash))
  }

  /** The record built from a parsed font: sanitized names from the name
      table (`designer` becomes the author), the glyph count, the sorted code
      points, and the id `<postscriptName> -<size> -<now> `. */
  function ParsedRecord(file: File, parsed: ParsedFont, fmt: string, url: string, now: nat,
                        hash: string): (f: FontData)
    requires parsed.ParsedOk?
    ensures f.tags == [] && f.file == Some(file) && f.url == url && f.hash == Some(hash)
    ensures f.metadata.format == fmt
    ensures var m := f.metadata;
      && m.family == NameOf(parsed, "fontFamily") && m.subfamily == NameOf(parsed, "fontSubfamily")
      && m.fullName == NameOf(parsed, "fullName") && m.postscriptName == NameOf(parsed, "postscriptName")
      && m.author == Some(NameOf(parsed, "designer")) && m.copyright == Some(NameOf(parsed, "copyright"))
      && m.license == Some(NameOf(parsed, "license")) && m.version.None?
      && m.glyphCount == Some(parsed.numGlyphs)
      && m.supportedChars == Some(GetSupportedChars(parsed.cmap))
    ensures IsSanitized(f.metadata.family) && IsSanitized(f.metadata.subfamily)
    ensures IsSanitized(f.metadata.fullName) && IsSanitized(f.metadata.postscriptName)
    ensures StartsWith(f.id, f.metadata.postscriptName) && Contains(f.id, NatToDecimal(file.Size()))
  {
    var meta := FontMetadata(
      NameOf(parsed, "fontFamily"), NameOf(parsed, "fontSubfamily"),
      NameOf(parsed, "fullName"), NameOf(parsed, "postscriptName"),
      None, fmt, Some(parsed.numGlyphs), Some(GetSupportedChars(parsed.cmap)),
      Some(NameOf(parsed, "designer")), Some(NameOf(parsed, "copyright")),
      Some(NameOf(parsed, "license")));
    var size, stamp := NatToDecimal(file.Size()), NatToDecimal(now);
    ParsedIdShape(meta.postscriptName, size, stamp);
    var id := meta.postscriptName + " -" + size + " -" + stamp + " ";
    FontData(id, Some(file), url, meta, [], Some(hash))
  }

  /** `parseFontFile(file)`: `parsed` is the parser's verdict on `file.bytes`,
      `digest` the SHA-256 primitive, `url` the blob URL it creates and `now`
      the value of `Date.now()`. The hash is taken before the parse on every
      path. */
  function ParseFontFile(file: File, parsed: ParsedFont, digest: seq<Byte> -> seq<Byte>,
                         url: string, now: nat): (r: Extraction)
    // Rejected exactly when the parse fails on a metadata-only format; the
    // rejection registers nothing.
    ensures r.outcome.Rejected? <==> parsed.ParseFailed? && GetFontFormat(file.name) in MetadataOnlyFormats
    ensures r.outcome.Rejected? ==>
      r.outcome.reason == ErrorObject(UnsupportedMessage(GetFontFormat(file.name))) && r.registered.None?
    // Every record carries the content hash and is registered under its full name.
    ensures r.outcome.Fulfilled? ==>
      && r.outcome.font.hash == Some(Hasher.ComputeFileHash(Hasher.RawBuffer(file.bytes), digest))
      && r.registered == Some(FaceRegistration(r.outcome.font.metadata.fullName, url))
    ensures parsed.ParseFailed? && r.outcome.Fulfilled? ==>
      r.outcome.font == FallbackRecord(file, GetFontFormat(file.name), url, now, r.outcome.font.hash.value)
    ensures parsed.ParsedOk? ==>
      r.outcome.Fulfilled?
      && r.outcome.font == ParsedRecord(file, parsed, GetFontFormat(file.name), url, now, r.outcome.font.hash.value)
  {
    var hash := Hasher.ComputeFileHash(Hasher.RawBuffer(file.bytes), digest);
    var fmt := GetFontFormat(file.name);
    match parsed
    case ParseFailed =>
      if fmt in MetadataOnlyFormats then
        Extraction(Rejected(ErrorObject(UnsupportedMessage(fmt))), None)
      else
        var f := FallbackRecord(file, fmt, url, now, hash);
        Extraction(Fulfilled(f), Some(FaceRegistration(f.metadata.fullName, url)))
    case ParsedOk(_, _, _) =>
      var f := ParsedRecord(file, parsed, fmt, url, now, hash);
      Extraction(Fulfilled(f), Some(FaceRegistration(f.metadata.fullName, url)))
  }

  /** A failed parse of a renderable format still yields a record, and that
      record is registered under the file name. */
  lemma FallbackIsRegistered(file: File, digest: seq<Byte> -> seq<Byte>, url: string, now: nat)
    requires GetFontFormat(file.name) !in MetadataOnlyFormats
    ensures var r := ParseFontFile(file, ParseFailed, digest, url, now);
      r.outcome.Fulfilled? && r.outcome.font.metadata.family == file.name
      && r.registered == Some(FaceRegistration(file.name, url))
  {
  }

  /** A file whose name has no known extension is never rejected: the
      `UNKNOWN` tag is not metadata-only. */
  lemma UnknownFormatNeverRejected(file: File, parsed: ParsedFont, digest: seq<Byte> -> seq<Byte>,
                                   url: string, now: nat)
    requires Extension(file.name) !in Extensions
    ensures ParseFontFile(file, parsed, digest, url, now).outcome.Fulfilled?
  {
    assert GetFontFormat(file.name) == "UNKNOWN";
    MetadataOnlyTagsAreShort();
  }

  lemma MetadataOnlyTagsAreShort()
    ensures forall t :: t in MetadataOnlyFormats ==> |t| == 3
  {
  }
}
