/** What one catalog row derives from its font and the store
    (src/components/Font/FontRow.tsx): the CSS weight and style guessed from
    the subfamily name, the text direction of the preview text, and whether
    the font is a favorite. */
module FontRow {
  import opened Common
  import opened FontTypes
  import CatalogStore
  import FontParser

  // ---------------------------------------------------------------------------
  // Weight and style
  // ---------------------------------------------------------------------------

  /** One `if (subfamily.includes(k1) || subfamily.includes(k2)) fontWeight = w`. */
  datatype Rule = Rule(keywords: seq<string>, weight: string)

  predicate Fires(rule: Rule, s: string) {
    exists k :: 0 <= k < |rule.keywords| && Contains(s, rule.keywords[k])
  }

  /** The weight rules in the order the row tests them. */
  const WeightRules: seq<Rule> := [
    Rule(["bold"], "bold"),
    Rule(["thin"], "100"),
    Rule(["extra light", "extralight"], "200"),
    Rule(["light"], "300"),
    Rule(["medium"], "500"),
    Rule(["semibold", "semi bold"], "600"),
    Rule(["extra bold", "extrabold"], "800"),
    Rule(["black", "heavy"], "900")]

  /** The same rules with the `light` test moved before the `extra light`
      test, so that the more specific keyword is the one that decides. */
  const IntendedWeightRules: seq<Rule> := [
    WeightRules[0], WeightRules[1], WeightRules[3], WeightRules[2],
    WeightRules[4], WeightRules[5], WeightRules[6], WeightRules[7]]

  /** The `let fontWeight` reassignments: each rule in turn overwrites the
      weight when it fires. */
  function Cascade(rules: seq<Rule>, s: string, current: string): string
    decreases |rules|
  {
    if rules == [] then current
    else Cascade(rules[1..], s, if Fires(rules[0], s) then rules[0].weight else current)
  }

  /** Rule `k` fires and no later rule does. */
  predicate LastFiring(rules: seq<Rule>, s: string, k: int) {
    0 <= k < |rules| && Fires(rules[k], s)
    && forall j :: k < j < |rules| ==> !Fires(rules[j], s)
  }

  /** The cascade's reference reading: the last rule that fires decides, and
      with none firing the starting value stays. */
  lemma {:induction false} CascadeIsLastMatch(rules: seq<Rule>, s: string, current: string)
    ensures (forall k :: 0 <= k < |rules| ==> !Fires(rules[k], s)) ==> Cascade(rules, s, current) == current
    ensures forall k :: LastFiring(rules, s, k) ==> Cascade(rules, s, current) == rules[k].weight
    decreases |rules|
  {
    if rules != [] {
      var next := if Fires(rules[0], s) then rules[0].weight else current;
      CascadeIsLastMatch(rules[1..], s, next);
      forall k | LastFiring(rules, s, k) ensures Cascade(rules, s, current) == rules[k].weight {
        if k > 0 {
          assert LastFiring(rules[1..], s, k - 1);
        } else {
          assert forall j :: 0 <= j < |rules[1..]| ==> rules[1..][j] == rules[j + 1];
        }
      }
    }
  }

  /** When some rule fires, one of them is the last to fire. */
  lemma LastFiringExists(rules: seq<Rule>, s: string, k: int)
    requires 0 <= k < |rules| && Fires(rules[k], s)
    ensures exists m :: k <= m && LastFiring(rules, s, m)
    decreases |rules| - k
  {
    if !LastFiring(rules, s, k) {
      var j :| k < j < |rules| && Fires(rules[j], s);
      LastFiringExists(rules, s, j);
    }
  }

  /** The weight the row computes, as written: the rules run over the
      lower-cased subfamily starting from `normal`. */
  function FontWeightAsWritten(subfamily: string): string {
    Cascade(WeightRules, ToLower(subfamily), "normal")
  }

  /** The weight with the light rules in their intended order: the
      corrected rule, for comparison with the row as written. */
  function FontWeight(subfamily: string): string {
    Cascade(IntendedWeightRules, ToLower(subfamily), "normal")
  }

  /** `italic` when the subfamily mentions italic or oblique, independently
      of the weight. */
  function FontStyle(subfamily: string): (r: string)
    ensures r == "italic" || r == "normal"
    ensures r == "italic" <==> Contains(ToLower(subfamily), "italic") || Contains(ToLower(subfamily), "oblique")
  {
    var s := ToLower(subfamily);
    if Contains(s, "italic") || Contains(s, "oblique") then "italic" else "normal"
  }

  /** The inline style: the family list with its fallbacks, the weight, the style. */
  datatype Style = Style(fontFamily: string, fontWeight: string, fontStyle: string)

  function Quoted(s: string): string {
    "\"" + s + "\""
  }

  /** The row's style object, with the weight as the row computes it. */
  function FontStyleOf(meta: FontMetadata): (r: Style)
    ensures StartsWith(r.fontFamily, Quoted(meta.family))
    ensures Contains(r.fontFamily, Quoted(meta.fullName)) && Contains(r.fontFamily, Quoted(meta.postscriptName))
    ensures EndsWith(r.fontFamily, ", sans-serif")
    ensures r.fontWeight == FontWeightAsWritten(meta.subfamily) && r.fontStyle == FontStyle(meta.subfamily)
  {
    var rest := ", " + Quoted(meta.fullName) + ", " + Quoted(meta.postscriptName) + ", sans-serif";
    assert (Quoted(meta.family) + rest)[..|Quoted(meta.family)|] == Quoted(meta.family);
    ListedNames(Quoted(meta.family), Quoted(meta.fullName), Quoted(meta.postscriptName));
    Style(Quoted(meta.family) + rest, FontWeightAsWritten(meta.subfamily), FontStyle(meta.subfamily))
  }

  /** Both middle entries of `a, b, c, sans-serif` occur in the list. */
  lemma ListedNames(a: string, b: string, c: string)
    ensures var list := a + (", " + b + ", " + c + ", sans-serif");
      Contains(list, b) && Contains(list, c)
  {
    var list := a + (", " + b + ", " + c + ", sans-serif");
    assert OccursAt(list, b, |a| + 2);
    assert OccursAt(list, c, |a| + 2 + |b| + 2);
    ContainsAt(list, b);
    ContainsAt(list, c);
  }

  /** A row draws in the face its file registered: for every record the
      parser fulfils, the registered family name is one of the quoted
      entries of the row's `fontFamily` list. */
  lemma RowNamesRegisteredFace(file: File, parsed: FontParser.ParsedFont,
                               digest: seq<Byte> -> seq<Byte>, url: string, now: nat)
    requires FontParser.ParseFontFile(file, parsed, digest, url, now).outcome.Fulfilled?
    ensures var r := FontParser.ParseFontFile(file, parsed, digest, url, now);
      r.registered.Some?
      && Contains(FontStyleOf(r.outcome.font.metadata).fontFamily, Quoted(r.registered.value.family))
  {
  }

  /** A subfamily that mentions no keyword gets weight and style `normal`. */
  lemma PlainSubfamilyIsNormal(subfamily: string)
    requires forall k :: 0 <= k < |WeightRules| ==> !Fires(WeightRules[k], ToLower(subfamily))
    requires !Contains(ToLower(subfamily), "italic") && !Contains(ToLower(subfamily), "oblique")
    ensures FontWeightAsWritten(subfamily) == "normal" && FontWeight(subfamily) == "normal"
    ensures FontStyle(subfamily) == "normal"
  {
    CascadeIsLastMatch(WeightRules, ToLower(subfamily), "normal");
    CascadeIsLastMatch(IntendedWeightRules, ToLower(subfamily), "normal");
  }

  /** In both orders the last rule that fires decides the weight. */
  lemma FontWeightIsLastMatch(subfamily: string, k: nat)
    ensures LastFiring(WeightRules, ToLower(subfamily), k) ==>
      FontWeightAsWritten(subfamily) == WeightRules[k].weight
    ensures LastFiring(IntendedWeightRules, ToLower(subfamily), k) ==>
      FontWeight(subfamily) == IntendedWeightRules[k].weight
  {
    CascadeIsLastMatch(WeightRules, ToLower(subfamily), "normal");
    CascadeIsLastMatch(IntendedWeightRules, ToLower(subfamily), "normal");
  }

  /** Both spellings of the extra-light keyword contain `light`. */
  lemma ExtraLightFiresLight(s: string)
    requires Fires(WeightRules[2], s)
    ensures Fires(WeightRules[3], s)
  {
    var k :| 0 <= k < 2 && Contains(s, WeightRules[2].keywords[k]);
    var kw := WeightRules[2].keywords[k];
    assert OccursAt(kw, "light", |kw| - 5);
    ContainsAt(kw, "light");
    ContainsTransitive(s, kw, "light");
    assert Contains(s, WeightRules[3].keywords[0]);
  }

  /** As written, no subfamily gets weight 200: whenever the extra-light rule
      fires, the later `light` rule fires too and overwrites it. */
  lemma AsWrittenNever200(subfamily: string)
    ensures FontWeightAsWritten(subfamily) != "200"
  {
    var s := ToLower(subfamily);
    CascadeIsLastMatch(WeightRules, s, "normal");
    if Fires(WeightRules[2], s) {
      ExtraLightFiresLight(s);
    }
    if k :| 0 <= k < |WeightRules| && Fires(WeightRules[k], s) {
      LastFiringExists(WeightRules, s, k);
      var m :| k <= m && LastFiring(WeightRules, s, m);
      assert m != 2;
      OnlyExtraLightGives200(m);
    }
  }

  /** Only the extra-light rule sets weight 200. */
  lemma OnlyExtraLightGives200(m: int)
    requires 0 <= m < |WeightRules| && m != 2
    ensures WeightRules[m].weight != "200"
  {
  }

  /** An extra-light subfamily with no heavier keyword: 300 as written,
      200 with the rules in their intended order. */
  lemma ExtraLightWeight(subfamily: string)
    requires Fires(WeightRules[2], ToLower(subfamily))
    requires forall j :: 4 <= j < 8 ==> !Fires(WeightRules[j], ToLower(subfamily))
    ensures FontWeightAsWritten(subfamily) == "300"
    ensures FontWeight(subfamily) == "200"
  {
    var s := ToLower(subfamily);
    ExtraLightFiresLight(s);
    assert LastFiring(WeightRules, s, 3);
    assert LastFiring(IntendedWeightRules, s, 3);
    FontWeightIsLastMatch(subfamily, 3);
  }

  /** The row itself shows an extra-light font at weight 300. */
  lemma ExtraLightRowStyle(meta: FontMetadata)
    requires Fires(WeightRules[2], ToLower(meta.subfamily))
    requires forall j :: 4 <= j < 8 ==> !Fires(WeightRules[j], ToLower(meta.subfamily))
    ensures FontStyleOf(meta).fontWeight == "300"
  {
    ExtraLightWeight(meta.subfamily);
  }

  /** A rule that does not fire can be dropped from the cascade. */
  lemma {:induction false} CascadeSkip(a: seq<Rule>, r: Rule, b: seq<Rule>, s: string, current: string)
    requires !Fires(r, s)
    ensures Cascade(a + [r] + b, s, current) == Cascade(a + b, s, current)
    decreases |a|
  {
    if a == [] {
      assert a + [r] + b == [r] + b && a + b == b;
      assert ([r] + b)[1..] == b;
    } else {
      var next := if Fires(a[0], s) then a[0].weight else current;
      CascadeSkip(a[1..], r, b, s, next);
      assert (a + [r] + b)[1..] == a[1..] + [r] + b;
      assert (a + b)[1..] == a[1..] + b;
    }
  }

  /** Where the extra-light rule does not fire, both orders give the same
      weight: the only difference between them is where that rule sits. */
  lemma OrdersAgreeWithoutExtraLight(subfamily: string)
    requires !Fires(WeightRules[2], ToLower(subfamily))
    ensures FontWeight(subfamily) == FontWeightAsWritten(subfamily)
  {
    var s := ToLower(subfamily);
    var r := WeightRules;
    var head := r[..2];
    var tail := r[4..];
    assert r == head + [r[2]] + ([r[3]] + tail);
    assert IntendedWeightRules == (head + [r[3]]) + [r[2]] + tail;
    assert head + ([r[3]] + tail) == (head + [r[3]]) + tail;
    CascadeSkip(head, r[2], [r[3]] + tail, s, "normal");
    CascadeSkip(head + [r[3]], r[2], tail, s, "normal");
  }

  // ---------------------------------------------------------------------------
  // Direction and favorite
  // ---------------------------------------------------------------------------

  /** The character class `[\u0591-\u07FF\uFB1D-\uFDFD\uFE70-\uFEFC]`. */
  predicate InRtlRange(c: char) {
    0x0591 <= c as int <= 0x07FF || 0xFB1D <= c as int <= 0xFDFD || 0xFE70 <= c as int <= 0xFEFC
  }

  /** `isRTL`: the regex test, scanning left to right. */
  function IsRtl(s: string): (r: bool)
    ensures r <==> exists i :: 0 <= i < |s| && InRtlRange(s[i])
    decreases |s|
  {
    if s == [] then false
    else if InRtlRange(s[0]) then true
    else
      var rest := IsRtl(s[1..]);
      assert forall i :: 1 <= i < |s| ==> s[i] == s[1..][i - 1];
      rest
  }

  datatype Direction = Direction(direction: string, textAlign: string)

  /** The preview's `direction` and `textAlign`. */
  function TextDirection(previewText: string): Direction {
    if IsRtl(previewText) then Direction("rtl", "right") else Direction("ltr", "left")
  }

  /** Right-to-left with right alignment exactly when the preview text holds
      a Hebrew, Arabic or presentation-form character; left-to-right with
      left alignment otherwise. */
  lemma DirectionFollowsScript(previewText: string)
    ensures TextDirection(previewText).direction == "rtl" <==>
      exists i :: 0 <= i < |previewText| && InRtlRange(previewText[i])
    ensures TextDirection(previewText).direction == "rtl" <==> TextDirection(previewText).textAlign == "right"
    ensures TextDirection(previewText).direction == "rtl" || TextDirection(previewText).direction == "ltr"
  {
  }

  /** `isFav`: the font's id is in the favorites list. */
  function IsFavorite(favorites: seq<string>, id: string): (r: bool)
    ensures r <==> exists i :: 0 <= i < |favorites| && favorites[i] == id
  {
    id in favorites
  }

  /** Toggling a font in the store flips its row's favorite mark and leaves
      every other row's mark as it was. */
  lemma FavoriteFlipsOnToggle(favorites: seq<string>, id: string, other: string)
    requires other != id
    ensures IsFavorite(CatalogStore.Toggled(favorites, id), id) == !IsFavorite(favorites, id)
    ensures IsFavorite(CatalogStore.Toggled(favorites, id), other) == IsFavorite(favorites, other)
  {
    var keep := (x: string) => x != id;
    var r := CatalogStore.Toggled(favorites, id);
    assert other in r <==> other in Filter(r, keep);
    assert other in favorites <==> other in Filter(favorites, keep);
  }
}
