/** The family page (src/components/Font/FontDetailsView.tsx): the fonts of
    the selected family, the representative whose metadata the page shows,
    the glyphs of the glyph tab, and the format summary. */
module FontDetails {
  import opened Common
  import opened FontTypes
  import FontList

  // ---------------------------------------------------------------------------
  // Family and representative
  // ---------------------------------------------------------------------------

  /** `fonts.filter(f => f.metadata.family === selectedFamily)`; with no
      selection (`null`) no font matches. */
  function FamilyFonts(fonts: seq<FontData>, selectedFamily: Option<string>): (r: seq<FontData>)
    ensures selectedFamily.Some? ==> r == Filter(fonts, (f: FontData) => f.metadata.family == selectedFamily.value)
    ensures selectedFamily.None? ==> r == []
    ensures IsSubsequence(r, fonts)
    ensures forall f :: f in r <==> f in fonts && selectedFamily == Some(f.metadata.family)
  {
    match selectedFamily
    case None => SubsequenceEmpty(fonts); []
    case Some(family) =>
      var inFamily := (f: FontData) => f.metadata.family == family;
      FilterIsSubsequence(fonts, inFamily);
      FilterCongruent(fonts, inFamily, (f: FontData) => f.metadata.family == selectedFamily.value);
      Filter(fonts, inFamily)
  }

  lemma SubsequenceEmpty<T>(s: seq<T>)
    ensures IsSubsequence([], s)
  {
  }

  /** `!selectedFamily`: no selection, or the empty name. */
  predicate Falsy(selectedFamily: Option<string>) {
    selectedFamily.None? || selectedFamily == Some("")
  }

  /** Whether the page shows the family-not-found message. */
  function ShowsNotFound(selectedFamily: Option<string>, familyFonts: seq<FontData>): bool {
    Falsy(selectedFamily) || |familyFonts| == 0
  }

  /** The not-found message appears exactly when nothing is selected, the
      empty name is selected, or no font of the catalog has the family. */
  lemma NotFoundIff(fonts: seq<FontData>, selectedFamily: Option<string>)
    ensures ShowsNotFound(selectedFamily, FamilyFonts(fonts, selectedFamily)) <==>
      Falsy(selectedFamily)
      || forall i :: 0 <= i < |fonts| ==> fonts[i].metadata.family != selectedFamily.value
  {
    var r := FamilyFonts(fonts, selectedFamily);
    if !Falsy(selectedFamily) && r != [] {
      assert r[0] in r;
    }
    if !Falsy(selectedFamily) && exists i :: 0 <= i < |fonts| && fonts[i].metadata.family == selectedFamily.value {
      var i :| 0 <= i < |fonts| && fonts[i].metadata.family == selectedFamily.value;
      assert fonts[i] in r;
    }
  }

  /** The fonts a list row shows for a family are the family's fonts that
      pass the list filter: the list and the page agree on a family. */
  lemma ListGroupWithinFamily(fonts: seq<FontData>, visible: FontData -> bool, family: string)
    ensures FontList.Group(Filter(fonts, visible), family)
      == Filter(FamilyFonts(fonts, Some(family)), visible)
  {
    var inFamily := (f: FontData) => f.metadata.family == family;
    var both := (f: FontData) => visible(f) && f.metadata.family == family;
    var both2 := (f: FontData) => f.metadata.family == family && visible(f);
    FilterFilter(fonts, visible, inFamily, both);
    FilterFilter(fonts, inFamily, visible, both2);
    FilterCongruent(fonts, both, both2);
  }

  /** Font `k` is the first whose subfamily is exactly `Regular`. */
  predicate FirstRegular(fonts: seq<FontData>, k: int) {
    0 <= k < |fonts| && fonts[k].metadata.subfamily == "Regular"
    && forall j :: 0 <= j < k ==> fonts[j].metadata.subfamily != "Regular"
  }

  /** `familyFonts.find(f => f.metadata.subfamily === 'Regular')`. */
  function FindRegular(fonts: seq<FontData>): (r: Option<FontData>)
    ensures r.None? <==> forall i :: 0 <= i < |fonts| ==> fonts[i].metadata.subfamily != "Regular"
    ensures forall k :: FirstRegular(fonts, k) ==> r == Some(fonts[k])
    decreases |fonts|
  {
    if fonts == [] then None
    else if fonts[0].metadata.subfamily == "Regular" then Some(fonts[0])
    else
      var rest := FindRegular(fonts[1..]);
      assert forall k :: FirstRegular(fonts, k) ==> FirstRegular(fonts[1..], k - 1);
      assert forall i :: 1 <= i < |fonts| ==> fonts[i] == fonts[1..][i - 1];
      rest
  }

  /** `find(...) || familyFonts[0]`: a found record is always truthy. */
  function Representative(familyFonts: seq<FontData>): (r: FontData)
    requires |familyFonts| > 0
  {
    match FindRegular(familyFonts)
    case Some(f) => f
    case None => familyFonts[0]
  }

  /** The representative is the first `Regular` font of the family, or the
      first font when none is `Regular`; either way one of the family. */
  lemma RepresentativeChoice(familyFonts: seq<FontData>)
    requires |familyFonts| > 0
    ensures Representative(familyFonts) in familyFonts
    ensures forall k :: FirstRegular(familyFonts, k) ==> Representative(familyFonts) == familyFonts[k]
    ensures (forall i :: 0 <= i < |familyFonts| ==> familyFonts[i].metadata.subfamily != "Regular")
      ==> Representative(familyFonts) == familyFonts[0]
  {
    if FindRegular(familyFonts).Some? {
      var i :| 0 <= i < |familyFonts| && familyFonts[i].metadata.subfamily == "Regular";
      FirstRegularExists(familyFonts, i);
    }
  }

  /** Some `Regular` font means a first one. */
  lemma FirstRegularExists(fonts: seq<FontData>, i: int)
    requires 0 <= i < |fonts| && fonts[i].metadata.subfamily == "Regular"
    ensures exists k :: k <= i && FirstRegular(fonts, k)
    decreases i
  {
    if !FirstRegular(fonts, i) {
      var j :| 0 <= j < i && fonts[j].metadata.subfamily == "Regular";
      FirstRegularExists(fonts, j);
    }
  }

  // ---------------------------------------------------------------------------
  // Glyphs
  // ---------------------------------------------------------------------------

  /** The longest glyph list the tab renders. */
  const MaxGlyphs := 2000

  /** `Array.from({ length: count }, (_, i) => start + i)`. */
  function Range(start: nat, count: nat): (r: seq<nat>)
    ensures |r| == count && forall i :: 0 <= i < count ==> r[i] == start + i
  {
    seq(count, i requires 0 <= i < count => start + i)
  }

  /** The fallback candidates: Basic Latin, Latin-1 Supplement, Hebrew, then
      the euro, won, new sheqel and dong signs. */
  function FallbackCandidates(): seq<nat> {
    Range(32, 95) + Range(160, 96) + Range(0x0590, 112) + [0x20AC, 0x20A9, 0x20AA, 0x20AB]
  }

  /** 307 codes, and exactly the listed ranges and signs. */
  lemma FallbackCandidatesAre()
    ensures |FallbackCandidates()| == 307
    ensures forall c :: c in FallbackCandidates() <==>
      32 <= c <= 126 || 160 <= c <= 255 || 0x0590 <= c <= 0x05FF
      || c == 0x20AC || c == 0x20A9 || c == 0x20AA || c == 0x20AB
  {
    var basic, latin1, hebrew := Range(32, 95), Range(160, 96), Range(0x0590, 112);
    forall c | 32 <= c <= 126 ensures c in basic { assert basic[c - 32] == c; }
    forall c | 160 <= c <= 255 ensures c in latin1 { assert latin1[c - 160] == c; }
    forall c | 0x0590 <= c <= 0x05FF ensures c in hebrew { assert hebrew[c - 0x0590] == c; }
  }

  /** Glyph codes present: `supportedChars` that is there and non-empty. */
  predicate HasOwnGlyphs(meta: FontMetadata) {
    meta.supportedChars.Some? && |meta.supportedChars.value| > 0
  }

  /** The glyph tab's list. `isGlyphSupported` is the canvas test for the
      representative's family, taken as given. */
  function GlyphsToShow(meta: FontMetadata, isGlyphSupported: nat -> bool): (r: seq<nat>)
    ensures |r| <= MaxGlyphs
    ensures HasOwnGlyphs(meta) ==>
      |r| == Min(|meta.supportedChars.value|, MaxGlyphs) && r == meta.supportedChars.value[..|r|]
    ensures !HasOwnGlyphs(meta) ==> r == Filter(FallbackCandidates(), isGlyphSupported)
  {
    var chosen := if HasOwnGlyphs(meta) then meta.supportedChars.value
      else Filter(FallbackCandidates(), isGlyphSupported);
    if |chosen| > MaxGlyphs then chosen[..MaxGlyphs] else chosen
  }

  /** Whether the approximation disclaimer is shown under the glyphs. */
  function ShowsDisclaimer(meta: FontMetadata): bool {
    meta.supportedChars.None? || |meta.supportedChars.value| == 0
  }

  /** The disclaimer is shown exactly when the glyphs are the canvas-checked
      fallback candidates; those are all in the fallback ranges. */
  lemma DisclaimerMarksFallback(meta: FontMetadata, isGlyphSupported: nat -> bool)
    ensures ShowsDisclaimer(meta) <==> !HasOwnGlyphs(meta)
    ensures ShowsDisclaimer(meta) ==> forall c :: c in GlyphsToShow(meta, isGlyphSupported) ==>
      c in FallbackCandidates() && isGlyphSupported(c)
    ensures !ShowsDisclaimer(meta) ==> forall c :: c in GlyphsToShow(meta, isGlyphSupported) ==>
      c in meta.supportedChars.value
  {
    if !ShowsDisclaimer(meta) {
      var s := meta.supportedChars.value;
      var r := GlyphsToShow(meta, isGlyphSupported);
      forall c | c in r ensures c in s {
        var i :| 0 <= i < |r| && r[i] == c;
        assert s[i] == c;
      }
    }
  }

  /** The empty glyph message only appears on the fallback path: a font
      with its own code points always shows some. */
  lemma NoGlyphsOnlyOnFallback(meta: FontMetadata, isGlyphSupported: nat -> bool)
    requires GlyphsToShow(meta, isGlyphSupported) == []
    ensures ShowsDisclaimer(meta)
  {
  }

  // ---------------------------------------------------------------------------
  // Format summary
  // ---------------------------------------------------------------------------

  /** `familyFonts.map(f => f.metadata.format.toUpperCase())`. */
  function UpperFormats(fonts: seq<FontData>): (r: seq<string>)
    ensures |r| == |fonts| && forall i :: 0 <= i < |fonts| ==> r[i] == ToUpper(fonts[i].metadata.format)
  {
    seq(|fonts|, i requires 0 <= i < |fonts| => ToUpper(fonts[i].metadata.format))
  }

  /** `Array.from(new Set(...)).join(', ')`. */
  function FormatLabel(familyFonts: seq<FontData>): string {
    Join(Distinct(UpperFormats(familyFonts)), ", ")
  }

  /** The label joins each upper-cased format once, in the order in which
      the family first uses it. */
  lemma FormatLabelParts(familyFonts: seq<FontData>)
    ensures var parts := Distinct(UpperFormats(familyFonts));
      && FormatLabel(familyFonts) == Join(parts, ", ")
      && NoDuplicates(parts)
      && (forall x :: x in parts <==> exists i :: 0 <= i < |familyFonts| && ToUpper(familyFonts[i].metadata.format) == x)
      && (forall i, j :: 0 <= i < j < |parts| ==>
            FirstIndex(UpperFormats(familyFonts), parts[i]) < FirstIndex(UpperFormats(familyFonts), parts[j]))
  {
    DistinctOrder(UpperFormats(familyFonts));
    DistinctNoDuplicates(UpperFormats(familyFonts));
    var u := UpperFormats(familyFonts);
    forall x | x in Distinct(u) ensures exists i :: 0 <= i < |familyFonts| && ToUpper(familyFonts[i].metadata.format) == x {
      var i :| 0 <= i < |u| && u[i] == x;
    }
  }
}
