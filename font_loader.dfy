/** The ingestion pipeline (src/hooks/useFontLoader.ts): `loadFiles` drops
    oversized files, parses the rest in batches of ten, classifies each
    settled outcome, reports unsupported formats once per name per batch,
    and finally hands every parsed font to the store; `handleDrop` keeps the
    files with a known extension. Parsing is the outcome function `parse`;
    notifications are recorded as a list of events. */
module FontLoader {
  import opened Common
  import opened FontTypes
  import opened FontParser
  import opened CatalogStore

  const BatchSize: nat := 10
  const MaxFileSize: nat := 20 * 1024 * 1024
  /** Duration, in milliseconds, of each notice (and of each file named in a
      multi-file notice). */
  const NoticeMillis: nat := 5000
  /** Longest list of names a multi-file notice shows before `...`. */
  const MaxNamesLength: nat := 300

  /** A file whose parse was rejected as an unsupported format. */
  datatype FailedFile = FailedFile(name: string, format: string)

  /** The text of a notification: the oversized-file message, or one of the
      two unsupported-format templates with its parameters. */
  datatype NoticeText =
    | TooLarge(message: string)
    | FormatNotSupported(name: string, format: string)
    | FormatsNotSupported(count: nat, names: string)

  /** A `showToast(text, duration)` call. */
  datatype Notice = Notice(text: NoticeText, duration: nat)

  // ---------------------------------------------------------------------------
  // The size filter
  // ---------------------------------------------------------------------------

  predicate Oversized(f: File) {
    f.Size() > MaxFileSize
  }

  /** `items.map(i => i.name)`: the one name projection, used for the files
      and for the failed entries. */
  function Names<T>(items: seq<T>, name: T -> string): (r: seq<string>)
    ensures |r| == |items| && forall i :: 0 <= i < |items| ==> r[i] == name(items[i])
  {
    seq(|items|, i requires 0 <= i < |items| => name(items[i]))
  }

  function FileName(f: File): string {
    f.name
  }

  function FailedName(item: FailedFile): string {
    item.name
  }

  /** The files that are parsed: at most 20 MiB each, in input order. */
  function ValidFiles(files: seq<File>): (r: seq<File>)
    ensures IsSubsequence(r, files)
    ensures forall f :: f in r <==> f in files && f.Size() <= MaxFileSize
  {
    var small := (f: File) => !Oversized(f);
    FilterIsSubsequence(files, small);
    Filter(files, small)
  }

  /** The names of the files over the limit, in input order. */
  function OversizedNames(files: seq<File>): (r: seq<string>)
    ensures forall n :: n in r <==> exists f :: f in files && Oversized(f) && f.name == n
  {
    var big := Filter(files, (f: File) => Oversized(f));
    var r := Names(big, FileName);
    forall f | f in big ensures f.name in r {
      var i :| 0 <= i < |big| && big[i] == f;
      assert r[i] == f.name;
    }
    forall n | n in r ensures exists f :: f in files && Oversized(f) && f.name == n {
      var i :| 0 <= i < |r| && r[i] == n;
      assert big[i] in big;
    }
    r
  }

  const TooLargePrefix := "File too large (>20MB): "

  /** The oversized-file message: at most the first three names, joined by
      `, `, and `...` exactly when some name is left out. */
  function OversizedMessage(names: seq<string>): (r: string)
    ensures |names| <= 3 ==> r == TooLargePrefix + Join(names, ", ")
    ensures |names| > 3 ==> r == TooLargePrefix + Join(names[..3], ", ") + "..."
  {
    var shown := if |names| <= 3 then names else names[..3];
    TooLargePrefix + Join(shown, ", ") + (if |names| > 3 then "..." else "")
  }

  /** The message names each of the first three oversized files. */
  lemma OversizedMessageNamesFirstThree(names: seq<string>, k: nat)
    requires k < 3 && k < |names|
    ensures Contains(OversizedMessage(names), names[k])
  {
    var shown := if |names| <= 3 then names else names[..3];
    JoinContains(shown, ", ", k);
    ContainsInside(TooLargePrefix, Join(shown, ", "), if |names| > 3 then "..." else "", names[k]);
  }

  /** The notice for the oversized files, if there are any: their names in
      the message, shown for 5 s. */
  function OversizedNotices(files: seq<File>): (r: seq<Notice>)
    ensures |r| <= 1
    ensures r != [] <==> exists f :: f in files && Oversized(f)
    ensures r != [] ==> r[0] == Notice(TooLarge(OversizedMessage(OversizedNames(files))), NoticeMillis)
  {
    var names := OversizedNames(files);
    if names == [] then
      assert forall f :: f in files && Oversized(f) ==> f.name in names;
      []
    else
      assert names[0] in names;
      [Notice(TooLarge(OversizedMessage(names)), NoticeMillis)]
  }

  /** A file of exactly 20 MiB is kept; one byte more is not. */
  lemma SizeBoundary(f: File)
    ensures f in ValidFiles([f]) <==> |f.bytes| <= 20 * 1024 * 1024
  {
  }

  // ---------------------------------------------------------------------------
  // Batches
  // ---------------------------------------------------------------------------

  /** The batch starting at offset `i`: `validFiles.slice(i, i + 10)`. */
  function Batch(v: seq<File>, i: nat): (b: seq<File>)
    requires i < |v|
    ensures 0 < |b| <= BatchSize && i + |b| == Min(i + BatchSize, |v|)
    ensures b == v[i..i + |b|]
  {
    v[i..Min(i + BatchSize, |v|)]
  }

  /** The batches at offsets `i`, `i + 10`, ... */
  function BatchesFrom(v: seq<File>, i: nat): seq<seq<File>>
    decreases |v| - i
  {
    if i >= |v| then [] else [Batch(v, i)] + BatchesFrom(v, i + BatchSize)
  }

  /** The batches split the valid files: concatenated in order they give the
      files back, and each holds between one and ten files. */
  lemma {:induction false} BatchesCover(v: seq<File>, i: nat)
    requires i <= |v|
    ensures FlatMap(BatchesFrom(v, i), (b: seq<File>) => b) == v[i..]
    ensures forall b :: b in BatchesFrom(v, i) ==> 0 < |b| <= BatchSize
    decreases |v| - i
  {
    if i < |v| {
      var b := Batch(v, i);
      var next := i + |b|;
      var rest := BatchesFrom(v, i + BatchSize);
      if next < |v| {
        assert next == i + BatchSize;
        BatchesCover(v, next);
      } else {
        assert rest == [];
      }
      assert BatchesFrom(v, i) == [b] + rest;
      assert v[i..] == b + v[next..];
    }
  }

  // ---------------------------------------------------------------------------
  // Classifying settled outcomes
  // ---------------------------------------------------------------------------

  /** `file.name.split('.').pop()?.toUpperCase() || 'UNKNOWN'`. */
  function FailedFormat(name: string): (r: string)
    ensures LastSegment(name, '.') != "" ==> r == ToUpper(LastSegment(name, '.'))
    ensures LastSegment(name, '.') == "" ==> r == "UNKNOWN"
    ensures r != ""
  {
    var seg := ToUpper(LastSegment(name, '.'));
    if seg == "" then "UNKNOWN" else seg
  }

  /** A rejection counts as an unsupported format when it is an `Error` whose
      message contains `not supported`. */
  predicate IsFormatRejection(s: Settled) {
    s.Rejected? && s.reason.ErrorObject? && Contains(s.reason.message, "not supported")
  }

  function SuccessOf(s: Settled): (r: seq<FontData>)
    ensures s.Fulfilled? ==> r == [s.font]
    ensures s.Rejected? ==> r == []
  {
    if s.Fulfilled? then [s.font] else []
  }

  function FailureOf(f: File, s: Settled): (r: seq<FailedFile>)
    ensures IsFormatRejection(s) ==> r == [FailedFile(f.name, FailedFormat(f.name))]
    ensures !IsFormatRejection(s) ==> r == []
  {
    if IsFormatRejection(s) then [FailedFile(f.name, FailedFormat(f.name))] else []
  }

  function ErrorOf(s: Settled): (r: seq<Reason>)
    ensures s.Rejected? && !IsFormatRejection(s) ==> r == [s.reason]
    ensures s.Fulfilled? || IsFormatRejection(s) ==> r == []
  {
    if s.Rejected? && !IsFormatRejection(s) then [s.reason] else []
  }

  /** Each outcome goes to exactly one of the three lists. */
  lemma ClassificationIsExclusive(f: File, s: Settled)
    ensures |SuccessOf(s)| + |FailureOf(f, s)| + |ErrorOf(s)| == 1
  {
  }

  /** The parsed fonts of `files`, in order. */
  function Successes(files: seq<File>, parse: File -> Settled): seq<FontData> {
    FlatMap(files, (f: File) => SuccessOf(parse(f)))
  }

  function Failures(files: seq<File>, parse: File -> Settled): seq<FailedFile> {
    FlatMap(files, (f: File) => FailureOf(f, parse(f)))
  }

  function Errors(files: seq<File>, parse: File -> Settled): seq<Reason> {
    FlatMap(files, (f: File) => ErrorOf(parse(f)))
  }

  /** The parser's rejection message is classified as an unsupported format. */
  lemma RejectionMessageMatches(fmt: string)
    ensures IsFormatRejection(Rejected(ErrorObject(UnsupportedMessage(fmt))))
  {
    var msg := UnsupportedMessage(fmt);
    assert msg == ("Format " + fmt + " ") + "not supported" + "";
    IdParts("Format " + fmt + " ", "not supported", "");
  }

  /** For a known extension the loader's upper-cased segment is the
      classifier's tag. */
  lemma FailedFormatIsTag(name: string)
    requires Extension(name) in Extensions
    ensures FailedFormat(name) == GetFontFormat(name)
  {
    var seg := LastSegment(name, '.');
    FormatIsUpperCaseExtension(name);
    UpperOfLower(seg);
    ExtensionsAreNonEmpty();
    assert |ToUpper(seg)| == |Extension(name)| > 0;
  }

  /** The rejection `parseFontFile` produces for a metadata-only format is
      classified as an unsupported format, reported under the same tag. */
  lemma ParserRejectionIsReported(file: File, parsed: ParsedFont, digest: seq<Byte> -> seq<Byte>,
                                  url: string, now: nat)
    requires ParseFontFile(file, parsed, digest, url, now).outcome.Rejected?
    ensures var s := ParseFontFile(file, parsed, digest, url, now).outcome;
      FailureOf(file, s) == [FailedFile(file.name, GetFontFormat(file.name))]
  {
    FormatRejectionIsReported(file, GetFontFormat(file.name));
  }

  /** The rejection for a metadata-only format becomes one failed entry under
      the classifier's tag. */
  lemma FormatRejectionIsReported(file: File, fmt: string)
    requires fmt == GetFontFormat(file.name) && fmt in MetadataOnlyFormats
    ensures FailureOf(file, Rejected(ErrorObject(UnsupportedMessage(fmt)))) == [FailedFile(file.name, fmt)]
  {
    MetadataOnlyTagsAreShort();
    assert |fmt| == 3;
    RejectionMessageMatches(fmt);
    FailedFormatIsTag(file.name);
  }

  /** Raising the case after lowering it is raising it. */
  lemma UpperOfLower(s: string)
    ensures ToUpper(ToLower(s)) == ToUpper(s)
  {
    assert forall i :: 0 <= i < |s| ==> UpperChar(LowerChar(s[i])) == UpperChar(s[i]);
  }

  // ---------------------------------------------------------------------------
  // Failure notices
  // ---------------------------------------------------------------------------

  /** `Array.from(new Map(items.map(i => [i.name, i])).values())`: one entry
      per name, at the position of the name's first occurrence, holding the
      last item with that name. */
  function DedupByName(items: seq<FailedFile>): (r: seq<FailedFile>)
    ensures Names(r, FailedName) == Distinct(Names(items, FailedName))
    ensures forall e :: e in r ==> e in items
    decreases |items|
  {
    if items == [] then []
    else
      var init := items[..|items| - 1];
      var last := items[|items| - 1];
      assert items == init + [last];
      assert Names(items, FailedName) == Names(init, FailedName) + [last.name];
      assert Names(items, FailedName)[..|items| - 1] == Names(init, FailedName);
      var d := DedupByName(init);
      if last.name in Names(d, FailedName) then
        var k := FirstIndex(Names(d, FailedName), last.name);
        assert Names(d[k := last], FailedName) == Names(d, FailedName);
        d[k := last]
      else
        assert Names(d + [last], FailedName) == Names(d, FailedName) + [last.name];
        d + [last]
  }

  /** The multi-file list of names, cut to 300 characters plus `...`. */
  function DisplayNames(names: string): (r: string)
    ensures |names| <= MaxNamesLength ==> r == names
    ensures |names| > MaxNamesLength ==>
      |r| == MaxNamesLength + 3 && r[..MaxNamesLength] == names[..MaxNamesLength] && r[MaxNamesLength..] == "..."
  {
    if |names| > MaxNamesLength then names[..MaxNamesLength] + "..." else names
  }

  /** The notices for one batch's unique failures: none, the single-file
      notice, or the multi-file notice lasting 5 s per file. */
  function FailureNotices(unique: seq<FailedFile>): (r: seq<Notice>)
    ensures unique == [] <==> r == []
    ensures |unique| == 1 ==> r == [Notice(FormatNotSupported(unique[0].name, unique[0].format), NoticeMillis)]
    ensures |unique| > 1 ==> (|r| == 1 && r[0].duration == |unique| * NoticeMillis
      && r[0].text == FormatsNotSupported(|unique|, DisplayNames(Join(Names(unique, FailedName), ", "))))
  {
    if |unique| == 0 then []
    else if |unique| == 1 then
      [Notice(FormatNotSupported(unique[0].name, unique[0].format), NoticeMillis)]
    else
      var names := Join(Names(unique, FailedName), ", ");
      [Notice(FormatsNotSupported(|unique|, DisplayNames(names)), |unique| * NoticeMillis)]
  }

  /** When the joined names fit in 300 characters, the multi-file notice
      names every failed file. */
  lemma MultiFileNoticeNamesEachFile(unique: seq<FailedFile>, k: nat)
    requires |unique| > 1 && k < |unique|
    requires |Join(Names(unique, FailedName), ", ")| <= MaxNamesLength
    ensures Contains(FailureNotices(unique)[0].text.names, unique[k].name)
  {
    JoinContains(Names(unique, FailedName), ", ", k);
  }

  function BatchNotices(batch: seq<File>, parse: File -> Settled): seq<Notice> {
    FailureNotices(DedupByName(Failures(batch, parse)))
  }

  /** `g` applied to the batches at offsets `i`, `i + 10`, ..., concatenated. */
  function PerBatch<T>(v: seq<File>, g: seq<File> -> seq<T>, i: nat): seq<T>
    decreases |v| - i
  {
    if i >= |v| then [] else g(Batch(v, i)) + PerBatch(v, g, i + BatchSize)
  }

  /** The failure notices of the batches of `v` from offset `i` on. */
  function NoticesFrom(v: seq<File>, parse: File -> Settled, i: nat): seq<Notice> {
    PerBatch(v, (b: seq<File>) => BatchNotices(b, parse), i)
  }

  /** The batch at offset `i` reports its notices before the later ones. */
  lemma NoticesStep(v: seq<File>, parse: File -> Settled, i: nat)
    requires i < |v|
    ensures NoticesFrom(v, parse, i) == BatchNotices(Batch(v, i), parse) + NoticesFrom(v, parse, i + BatchSize)
  {
  }

  /** The failure notices of every batch of `v`, in batch order. */
  function NoticesOfBatches(v: seq<File>, parse: File -> Settled): seq<Notice> {
    NoticesFrom(v, parse, 0)
  }

  /** Every notice `loadFiles` shows, in order: the oversized notice, then
      each batch's failure notice. */
  function LoadNotices(files: seq<File>, parse: File -> Settled): seq<Notice> {
    OversizedNotices(files) + NoticesOfBatches(ValidFiles(files), parse)
  }

  /** A batch whose files all fail with the same name gets the single-file
      notice once, however many copies it holds. */
  lemma RepeatedFailureReportedOnce(f: File, parse: File -> Settled)
    requires IsFormatRejection(parse(f))
    ensures BatchNotices([f, f], parse)
      == [Notice(FormatNotSupported(f.name, FailedFormat(f.name)), NoticeMillis)]
  {
    var item := FailedFile(f.name, FailedFormat(f.name));
    assert [f, f][1..] == [f];
    assert [f][1..] == [];
    assert Failures([f], parse) == [item] + Failures([], parse);
    assert Failures([f, f], parse) == [item] + Failures([f], parse);
    assert [item, item][..1] == [item];
    assert [item][..0] == [];
    assert Names([item], FailedName) == [f.name];
    assert Distinct([f.name]) == [f.name];
    assert Distinct([f.name, f.name]) == [f.name] by {
      assert [f.name, f.name][..1] == [f.name];
    }
    assert Names([item, item], FailedName) == [f.name, f.name];
    var d := DedupByName([item, item]);
    assert |Names(d, FailedName)| == 1;
    assert d[0] in d;
    assert d == [item];
  }

  // ---------------------------------------------------------------------------
  // loadFiles and handleDrop
  // ---------------------------------------------------------------------------

  /** One more file extends the kept files when it is small enough. */
  lemma ValidFilesStep(files: seq<File>, k: nat)
    requires k < |files|
    ensures ValidFiles(files[..k + 1])
      == ValidFiles(files[..k]) + (if Oversized(files[k]) then [] else [files[k]])
  {
    assert files[..k + 1] == files[..k] + [files[k]];
    FilterAppend(files[..k], [files[k]], (f: File) => !Oversized(f));
  }

  /** One more file extends the oversized names when it is too large. */
  lemma OversizedNamesStep(files: seq<File>, k: nat)
    requires k < |files|
    ensures OversizedNames(files[..k + 1])
      == OversizedNames(files[..k]) + (if Oversized(files[k]) then [files[k].name] else [])
  {
    assert files[..k + 1] == files[..k] + [files[k]];
    FilterAppend(files[..k], [files[k]], (f: File) => Oversized(f));
    var big := Filter(files[..k], (f: File) => Oversized(f));
    assert Names(big + [files[k]], FileName) == Names(big, FileName) + [files[k].name];
  }

  /** The size filter of `loadFiles`: the kept files and the names of the
      oversized ones, both in input order. */
  method SplitBySize(files: seq<File>) returns (validFiles: seq<File>, oversizedFiles: seq<string>)
    ensures validFiles == ValidFiles(files)
    ensures oversizedFiles == OversizedNames(files)
  {
    validFiles, oversizedFiles := [], [];
    for k := 0 to |files|
      invariant validFiles == ValidFiles(files[..k])
      invariant oversizedFiles == OversizedNames(files[..k])
    {
      ValidFilesStep(files, k);
      OversizedNamesStep(files, k);
      if files[k].Size() > MaxFileSize {
        oversizedFiles := oversizedFiles + [files[k].name];
      } else {
        validFiles := validFiles + [files[k]];
      }
    }
    assert files[..|files|] == files;
  }

  /** One more settled result extends the three lists by its own share. */
  lemma ClassifyStep(batch: seq<File>, parse: File -> Settled, j: nat)
    requires j < |batch|
    ensures Successes(batch[..j + 1], parse) == Successes(batch[..j], parse) + SuccessOf(parse(batch[j]))
    ensures Failures(batch[..j + 1], parse) == Failures(batch[..j], parse) + FailureOf(batch[j], parse(batch[j]))
    ensures Errors(batch[..j + 1], parse) == Errors(batch[..j], parse) + ErrorOf(parse(batch[j]))
  {
    assert batch[..j + 1] == batch[..j] + [batch[j]];
    FlatMapAppend(batch[..j], [batch[j]], (f: File) => SuccessOf(parse(f)));
    FlatMapAppend(batch[..j], [batch[j]], (f: File) => FailureOf(f, parse(f)));
    FlatMapAppend(batch[..j], [batch[j]], (f: File) => ErrorOf(parse(f)));
  }

  /** The settled results of one batch, sorted into parsed fonts,
      unsupported-format failures and other errors, each in batch order. */
  method ClassifyBatch(batch: seq<File>, parse: File -> Settled)
    returns (fonts: seq<FontData>, failedFiles: seq<FailedFile>, errors: seq<Reason>)
    ensures fonts == Successes(batch, parse)
    ensures failedFiles == Failures(batch, parse)
    ensures errors == Errors(batch, parse)
  {
    fonts, failedFiles, errors := [], [], [];
    for j := 0 to |batch|
      invariant fonts == Successes(batch[..j], parse)
      invariant failedFiles == Failures(batch[..j], parse)
      invariant errors == Errors(batch[..j], parse)
    {
      ClassifyStep(batch, parse, j);
      var result := parse(batch[j]);
      if result.Fulfilled? {
        fonts := fonts + [result.font];
      } else if IsFormatRejection(result) {
        failedFiles := failedFiles + [FailedFile(batch[j].name, FailedFormat(batch[j].name))];
      } else {
        errors := errors + [result.reason];
      }
    }
    assert batch[..|batch|] == batch;
  }

  /** The files up to the end of the batch at offset `i` give what the files
      before it give, then what the batch gives. */
  lemma BatchStep(v: seq<File>, parse: File -> Settled, i: nat)
    requires i < |v|
    ensures var n := Min(i + BatchSize, |v|);
      && Successes(v[..n], parse) == Successes(v[..Min(i, |v|)], parse) + Successes(Batch(v, i), parse)
      && Errors(v[..n], parse) == Errors(v[..Min(i, |v|)], parse) + Errors(Batch(v, i), parse)
  {
    var b := Batch(v, i);
    assert v[..i] + b == v[..i + |b|];
    FlatMapAppend(v[..i], b, (f: File) => SuccessOf(parse(f)));
    FlatMapAppend(v[..i], b, (f: File) => ErrorOf(parse(f)));
  }

  /** The batch loop of `loadFiles` over the valid files: the parsed fonts
      and the logged errors in file order, and one batch's failure notices
      after another. */
  method ProcessBatches(validFiles: seq<File>, parse: File -> Settled)
    returns (successfulFonts: seq<FontData>, errors: seq<Reason>, notices: seq<Notice>)
    ensures successfulFonts == Successes(validFiles, parse)
    ensures errors == Errors(validFiles, parse)
    ensures notices == NoticesOfBatches(validFiles, parse)
  {
    successfulFonts, errors, notices := [], [], [];
    var i := 0;
    while i < |validFiles|
      invariant successfulFonts == Successes(validFiles[..Min(i, |validFiles|)], parse)
      invariant errors == Errors(validFiles[..Min(i, |validFiles|)], parse)
      invariant notices + NoticesFrom(validFiles, parse, i) == NoticesOfBatches(validFiles, parse)
      decreases |validFiles| - i
    {
      var batch := Batch(validFiles, i);
      var fonts, failedFiles, batchErrors := ClassifyBatch(batch, parse);
      BatchStep(validFiles, parse, i);
      NoticesStep(validFiles, parse, i);
      var batchNotices := FailureNotices(DedupByName(failedFiles));
      successfulFonts := successfulFonts + fonts;
      errors := errors + batchErrors;
      notices := notices + batchNotices;
      i := i + BatchSize;
    }
    assert validFiles[..Min(i, |validFiles|)] == validFiles;
  }

  /** The store after `loadFiles(files)`: when something parsed, `addFonts`
      then `setActiveProvider('added')`, and every other field as it was;
      otherwise untouched. */
  twostate predicate Loaded(store: Store, files: seq<File>, parse: File -> Settled)
    reads store
  {
    var parsed := Successes(ValidFiles(files), parse);
    if parsed == [] then unchanged(store)
    else
      && store.fonts == old(store.fonts) + UniqueByHash(old(store.fonts), parsed)
      && store.activeProvider == "added" && store.Synced()
      && store.listScrollTop == 0 && store.listPage == 1
      && store.favorites == old(store.favorites) && store.collections == old(store.collections)
      && store.searchTerm == old(store.searchTerm) && store.accentColor == old(store.accentColor)
      && store.isInitialLoad == old(store.isInitialLoad)
  }

  /** `loadFiles(files)`: returns the notices shown and the errors logged; the
      parsed fonts go to the store, which then shows the `added` list. */
  method LoadFiles(store: Store, files: seq<File>, parse: File -> Settled)
    returns (notices: seq<Notice>, errors: seq<Reason>)
    modifies store
    ensures notices == LoadNotices(files, parse)
    ensures errors == Errors(ValidFiles(files), parse)
    ensures Loaded(store, files, parse)
  {
    var validFiles, oversizedFiles := SplitBySize(files);
    notices := [];
    if |oversizedFiles| > 0 {
      notices := notices + [Notice(TooLarge(OversizedMessage(oversizedFiles)), NoticeMillis)];
    }
    assert notices == OversizedNotices(files);
    var successfulFonts, batchNotices;
    successfulFonts, errors, batchNotices := ProcessBatches(validFiles, parse);
    notices := notices + batchNotices;
    if |successfulFonts| > 0 {
      store.AddFonts(successfulFonts);
      store.SetActiveProvider("added");
    }
  }

  /** The drop filter `/\.(ttf|otf|...|vfb)$/i`: the name ends, ignoring
      case, in a dot and one of the 13 extensions. */
  predicate DropAllowed(name: string) {
    exists k :: 0 <= k < |Extensions| && EndsWith(ToLower(name), "." + Extensions[k])
  }

  /** `handleDrop`: the dropped files with a known extension are loaded, and
      nothing happens when none is left. */
  method HandleDrop(store: Store, dropped: seq<File>, parse: File -> Settled)
    returns (notices: seq<Notice>, errors: seq<Reason>)
    modifies store
    ensures var files := Filter(dropped, (f: File) => DropAllowed(f.name));
      files == [] ==> notices == [] && errors == [] && unchanged(store)
    ensures var files := Filter(dropped, (f: File) => DropAllowed(f.name));
      files != [] ==>
        notices == LoadNotices(files, parse) && errors == Errors(ValidFiles(files), parse)
        && Loaded(store, files, parse)
    ensures forall f :: f in Filter(dropped, (f: File) => DropAllowed(f.name)) ==>
      GetFontFormat(f.name) != "UNKNOWN"
  {
    var files := Filter(dropped, (f: File) => DropAllowed(f.name));
    forall f | f in files ensures GetFontFormat(f.name) != "UNKNOWN" {
      DropAllowedIffKnownExtension(f.name);
    }
    if |files| > 0 {
      notices, errors := LoadFiles(store, files, parse);
    } else {
      notices, errors := [], [];
    }
  }

  lemma ExtensionsHaveNoDot()
    ensures forall k :: 0 <= k < |Extensions| ==> '.' !in Extensions[k]
  {
  }

  /** A dropped name passes the filter exactly when it has a dot and the
      classifier knows its extension. */
  lemma DropAllowedIffKnownExtension(name: string)
    ensures DropAllowed(name) <==> '.' in name && GetFontFormat(name) != "UNKNOWN"
  {
    var lower := ToLower(name);
    LastSegmentToLower(name);
    DotsSurviveLowering(name);
    ExtensionsHaveNoDot();
    assert Extension(name) == LastSegment(lower, '.');
    if DropAllowed(name) {
      var k :| 0 <= k < |Extensions| && EndsWith(lower, "." + Extensions[k]);
      EndsWithDotExtension(lower, Extensions[k]);
      assert Extension(name) in Extensions;
    }
    if '.' in name && GetFontFormat(name) != "UNKNOWN" {
      var k :| 0 <= k < |Extensions| && Extensions[k] == Extension(name);
      EndsWithDotExtension(lower, Extensions[k]);
    }
  }
}
