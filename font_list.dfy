/** The catalog list (src/components/Font/FontList.tsx): the filtered fonts
    grouped by exact family name, the family names in ascending order, and
    the overlay shown when nothing is listed. */
module FontList {
  import opened Common
  import opened FontTypes

  // ---------------------------------------------------------------------------
  // Grouping
  // ---------------------------------------------------------------------------

  /** `font.metadata.family` for every font, in list order. */
  function Families(fonts: seq<FontData>): (r: seq<string>)
    ensures |r| == |fonts| && forall i :: 0 <= i < |fonts| ==> r[i] == fonts[i].metadata.family
  {
    seq(|fonts|, i requires 0 <= i < |fonts| => fonts[i].metadata.family)
  }

  /** The fonts of one family, in list order. */
  function Group(fonts: seq<FontData>, family: string): seq<FontData> {
    Filter(fonts, (f: FontData) => f.metadata.family == family)
  }

  /** Appending a font extends its own family's group and no other. */
  lemma GroupSnoc(fonts: seq<FontData>, font: FontData, family: string)
    ensures Group(fonts + [font], family)
      == Group(fonts, family) + (if font.metadata.family == family then [font] else [])
  {
    FilterAppend(fonts, [font], (f: FontData) => f.metadata.family == family);
  }

  /** A family no font has has an empty group. */
  lemma {:induction false} GroupOfAbsentFamily(fonts: seq<FontData>, family: string)
    requires family !in Families(fonts)
    ensures Group(fonts, family) == []
    decreases |fonts|
  {
    if fonts != [] {
      assert Families(fonts[1..]) == Families(fonts)[1..];
      GroupOfAbsentFamily(fonts[1..], family);
    }
  }

  /** One `push`: the dictionary of the groups of `done` becomes the
      dictionary of the groups of `done + [font]`. */
  lemma GroupsStep(groups: map<string, seq<FontData>>, done: seq<FontData>, font: FontData)
    requires forall family :: family in groups ==> groups[family] == Group(done, family)
    requires font.metadata.family in groups || font.metadata.family !in Families(done)
    ensures var family := font.metadata.family;
      var old_list := if family in groups then groups[family] else [];
      var next := groups[family := old_list + [font]];
      forall other :: other in next ==> next[other] == Group(done + [font], other)
  {
    var family := font.metadata.family;
    if family !in groups {
      GroupOfAbsentFamily(done, family);
    }
    forall other {
      GroupSnoc(done, font, other);
    }
  }

  /** `groups` is the dictionary the loop builds from `done`, and `keys` its
      keys in insertion order. */
  ghost predicate Grouped(done: seq<FontData>, groups: map<string, seq<FontData>>, keys: seq<string>) {
    && keys == Distinct(Families(done))
    && (forall family :: family in groups <==> family in keys)
    && (forall family :: family in groups ==> groups[family] == Group(done, family))
  }

  /** One iteration of the `groupedFonts` loop: pushing `font` onto its
      family's list (created first when missing) turns the dictionary and
      key list of `done` into those of `done + [font]`. */
  lemma GroupingCore(done: seq<FontData>, font: FontData, groups: map<string, seq<FontData>>, keys: seq<string>,
                     nextGroups: map<string, seq<FontData>>, nextKeys: seq<string>)
    requires Grouped(done, groups, keys)
    requires var family := font.metadata.family;
      && nextKeys == (if family in groups then keys else keys + [family])
      && nextGroups == groups[family := (if family in groups then groups[family] else []) + [font]]
    ensures Grouped(done + [font], nextGroups, nextKeys)
  {
    var family := font.metadata.family;
    KeysStep(done, font);
    assert family in groups || family !in Families(done) by {
      if family !in groups {
        assert family !in keys;
      }
    }
    GroupsStep(groups, done, font);
  }

  /** The same step on the loop's prefix `fonts[..i]`. */
  lemma GroupingStep(fonts: seq<FontData>, i: nat, groups: map<string, seq<FontData>>, keys: seq<string>,
                     nextGroups: map<string, seq<FontData>>, nextKeys: seq<string>)
    requires i < |fonts| && Grouped(fonts[..i], groups, keys)
    requires var family := fonts[i].metadata.family;
      && nextKeys == (if family in groups then keys else keys + [family])
      && nextGroups == groups[family := (if family in groups then groups[family] else []) + [fonts[i]]]
    ensures Grouped(fonts[..i + 1], nextGroups, nextKeys)
  {
    assert fonts[..i + 1] == fonts[..i] + [fonts[i]];
    GroupingCore(fonts[..i], fonts[i], groups, keys, nextGroups, nextKeys);
  }

  /** A font's family joins the distinct families at the end, unless it is
      already there. */
  lemma KeysStep(done: seq<FontData>, font: FontData)
    ensures var family := font.metadata.family;
      var keys := Distinct(Families(done));
      Distinct(Families(done + [font])) == if family in keys then keys else keys + [family]
  {
    var family := font.metadata.family;
    assert Families(done + [font]) == Families(done) + [family];
    assert (Families(done) + [family])[..|done|] == Families(done);
  }

  /** The `groupedFonts` loop, pushing each font onto its family's list.
      `groups` is the dictionary; `keys` its own keys in insertion order, as
      `Object.keys` lists them before the sort. */
  method GroupByFamily(filteredFonts: seq<FontData>)
    returns (groups: map<string, seq<FontData>>, keys: seq<string>)
    ensures keys == Distinct(Families(filteredFonts))
    ensures forall family :: family in groups <==> family in keys
    ensures forall family :: family in groups ==> groups[family] == Group(filteredFonts, family)
  {
    groups, keys := map[], [];
    var i := 0;
    while i < |filteredFonts|
      invariant i <= |filteredFonts|
      invariant Grouped(filteredFonts[..i], groups, keys)
    {
      var font := filteredFonts[i];
      var family := font.metadata.family;
      ghost var before, keysBefore := groups, keys;
      var list := [];
      if family in groups {
        list := groups[family];
      } else {
        keys := keys + [family];
      }
      groups := groups[family := list + [font]];
      GroupingStep(filteredFonts, i, before, keysBefore, groups, keys);
      i := i + 1;
    }
    assert filteredFonts[..i] == filteredFonts;
  }

  /** Every font is in its own family's group and in no other. */
  lemma EachFontInOneGroup(fonts: seq<FontData>, font: FontData, family: string)
    requires font in fonts
    ensures font in Group(fonts, family) <==> family == font.metadata.family
  {
  }

  /** Every group holds at least one font: its key came from a font. */
  lemma GroupsAreNonEmpty(fonts: seq<FontData>, family: string)
    requires family in Distinct(Families(fonts))
    ensures |Group(fonts, family)| > 0
  {
    var k :| 0 <= k < |fonts| && Families(fonts)[k] == family;
    assert fonts[k] in Group(fonts, family);
  }

  /** The total of the group sizes over the names `names`. */
  function SumSizes(fonts: seq<FontData>, names: seq<string>): nat
    decreases |names|
  {
    if names == [] then 0 else |Group(fonts, names[0])| + SumSizes(fonts, names[1..])
  }

  /** How often `x` occurs in `names`. */
  function Count(names: seq<string>, x: string): nat
    decreases |names|
  {
    if names == [] then 0 else (if names[0] == x then 1 else 0) + Count(names[1..], x)
  }

  lemma {:induction false} CountOnce(names: seq<string>, x: string)
    requires NoDuplicates(names) && x in names
    ensures Count(names, x) == 1
    decreases |names|
  {
    if names[0] == x {
      CountAbsent(names[1..], x);
    } else {
      CountOnce(names[1..], x);
    }
  }

  lemma {:induction false} CountAbsent(names: seq<string>, x: string)
    requires x !in names
    ensures Count(names, x) == 0
    decreases |names|
  {
    if names != [] {
      CountAbsent(names[1..], x);
    }
  }

  /** Taking off the first font takes one off the group of its family. */
  lemma {:induction false} SumSizesSplit(fonts: seq<FontData>, names: seq<string>)
    requires fonts != []
    ensures SumSizes(fonts, names) == Count(names, fonts[0].metadata.family) + SumSizes(fonts[1..], names)
    decreases |names|
  {
    if names != [] {
      SumSizesSplit(fonts, names[1..]);
    }
  }

  /** The group sizes add up to the number of listed fonts, for any list of
      distinct names that covers every family. */
  lemma {:induction false} GroupSizesSum(fonts: seq<FontData>, names: seq<string>)
    requires NoDuplicates(names)
    requires forall i :: 0 <= i < |fonts| ==> fonts[i].metadata.family in names
    ensures SumSizes(fonts, names) == |fonts|
    decreases |fonts|
  {
    if fonts == [] {
      SumSizesEmpty(names);
    } else {
      SumSizesSplit(fonts, names);
      CountOnce(names, fonts[0].metadata.family);
      GroupSizesSum(fonts[1..], names);
    }
  }

  lemma {:induction false} SumSizesEmpty(names: seq<string>)
    ensures SumSizes([], names) == 0
    decreases |names|
  {
    if names != [] {
      SumSizesEmpty(names[1..]);
    }
  }

  // ---------------------------------------------------------------------------
  // The grouping as written
  // ---------------------------------------------------------------------------

  /** The properties every plain object `{}` inherits from `Object.prototype`;
      reading any of them gives a truthy value that is not an array. */
  const PrototypeKeys: set<string> := {
    "constructor", "__defineGetter__", "__defineSetter__", "hasOwnProperty",
    "__lookupGetter__", "__lookupSetter__", "isPrototypeOf",
    "propertyIsEnumerable", "toString", "valueOf", "__proto__", "toLocaleString"}

  /** What `groups[key]` reads on a plain object. */
  datatype Lookup = OwnList(list: seq<FontData>) | InheritedMember | Undefined

  function LookupKey(groups: map<string, seq<FontData>>, inherited: set<string>, key: string): Lookup {
    if key in groups then OwnList(groups[key])
    else if key in inherited then InheritedMember
    else Undefined
  }

  /** After `i` fonts the object's own keys are the families met so far,
      none of them inherited, each holding its group. */
  ghost predicate GroupedOwn(fonts: seq<FontData>, i: nat, groups: map<string, seq<FontData>>, inherited: set<string>)
    requires i <= |fonts|
  {
    && (forall j :: 0 <= j < i ==> fonts[j].metadata.family !in inherited)
    && (forall j :: 0 <= j < i ==> fonts[j].metadata.family in groups)
    && (forall family :: family in groups ==> family !in inherited)
    && (forall family :: family in groups ==> groups[family] == Group(fonts[..i], family))
    && (forall family :: family in groups ==> |groups[family]| > 0)
  }

  /** One iteration on an own or missing key keeps `GroupedOwn`. */
  lemma OwnStep(fonts: seq<FontData>, i: nat, groups: map<string, seq<FontData>>, inherited: set<string>,
                next: map<string, seq<FontData>>)
    requires i < |fonts| && GroupedOwn(fonts, i, groups, inherited)
    requires fonts[i].metadata.family !in inherited
    requires var family := fonts[i].metadata.family;
      next == groups[family := (if family in groups then groups[family] else []) + [fonts[i]]]
    ensures GroupedOwn(fonts, i + 1, next, inherited)
  {
    var font, done := fonts[i], fonts[..i];
    var family := font.metadata.family;
    assert fonts[..i + 1] == done + [font];
    assert family in groups || family !in Families(done) by {
      if family !in groups {
        forall j | 0 <= j < i ensures Families(done)[j] != family {
          assert done[j] == fonts[j];
        }
      }
    }
    GroupsStep(groups, done, font);
  }

  /** The grouping loop on a plain object `{}` whose prototype has the
      members `inherited` (`PrototypeKeys` in a browser): `None` is the
      `TypeError` thrown when `push` is called on an inherited member. */
  method GroupByFamilyAsWritten(filteredFonts: seq<FontData>, inherited: set<string>)
    returns (result: Option<map<string, seq<FontData>>>)
    ensures result.None? <==> exists i :: 0 <= i < |filteredFonts| && filteredFonts[i].metadata.family in inherited
    ensures result.Some? ==> forall i :: 0 <= i < |filteredFonts| ==>
      filteredFonts[i].metadata.family in result.value
    ensures result.Some? ==> forall family :: family in result.value ==>
      family in Families(filteredFonts) && result.value[family] == Group(filteredFonts, family)
  {
    var groups: map<string, seq<FontData>> := map[];
    var i := 0;
    while i < |filteredFonts|
      invariant i <= |filteredFonts|
      invariant GroupedOwn(filteredFonts, i, groups, inherited)
    {
      var font := filteredFonts[i];
      var family := font.metadata.family;
      var current := LookupKey(groups, inherited, family);
      if current.InheritedMember? {
        return None;
      }
      ghost var before := groups;
      if current.Undefined? {
        groups := groups[family := []];
      }
      groups := groups[family := groups[family] + [font]];
      OwnStep(filteredFonts, i, before, inherited, groups);
      i := i + 1;
    }
    assert filteredFonts[..i] == filteredFonts;
    forall family | family in groups ensures family in Families(filteredFonts) {
      if family !in Families(filteredFonts) {
        GroupOfAbsentFamily(filteredFonts, family);
      }
    }
    return Some(groups);
  }

  // ---------------------------------------------------------------------------
  // Sorted family names
  // ---------------------------------------------------------------------------

  /** The default `sort` order on strings: lexicographic by character. */
  predicate Below(a: string, b: string)
    decreases |a|
  {
    if a == [] then b != []
    else b != [] && (a[0] < b[0] || (a[0] == b[0] && Below(a[1..], b[1..])))
  }

  lemma {:induction false} BelowIrreflexive(a: string)
    ensures !Below(a, a)
    decreases |a|
  {
    if a != [] {
      BelowIrreflexive(a[1..]);
    }
  }

  lemma {:induction false} BelowTotal(a: string, b: string)
    ensures a == b || Below(a, b) || Below(b, a)
    decreases |a|
  {
    if a != [] && b != [] && a[0] == b[0] {
      BelowTotal(a[1..], b[1..]);
      if a[1..] == b[1..] {
        assert a == [a[0]] + a[1..] && b == [b[0]] + b[1..];
      }
    }
  }

  lemma {:induction false} BelowTransitive(a: string, b: string, c: string)
    requires Below(a, b) && Below(b, c)
    ensures Below(a, c)
    decreases |a|
  {
    if a != [] && a[0] == b[0] && b[0] == c[0] {
      BelowTransitive(a[1..], b[1..], c[1..]);
    }
  }

  lemma {:induction false} BelowAsymmetric(a: string, b: string)
    requires Below(a, b)
    ensures !Below(b, a)
    decreases |a|
  {
    if a != [] && a[0] == b[0] {
      BelowAsymmetric(a[1..], b[1..]);
    }
  }

  /** No element is below an earlier one. */
  predicate Sorted(s: seq<string>) {
    forall i, j :: 0 <= i < j < |s| ==> !Below(s[j], s[i])
  }

  /** Nothing in a sorted list is below `x` once its head is not. */
  lemma HeadBound(s: seq<string>, x: string)
    requires Sorted(s) && s != [] && !Below(s[0], x)
    ensures forall j :: 0 <= j < |s| ==> !Below(s[j], x)
  {
    forall j | 0 <= j < |s| ensures !Below(s[j], x) {
      if Below(s[j], x) {
        BelowTotal(s[0], s[j]);
        if Below(s[0], s[j]) {
          BelowTransitive(s[0], s[j], x);
        }
      }
    }
  }

  /** Putting `head` in front of a sorted list nothing of which is below it
      keeps it sorted. */
  lemma ConsSorted(head: string, s: seq<string>)
    requires Sorted(s)
    requires forall j :: 0 <= j < |s| ==> !Below(s[j], head)
    ensures Sorted([head] + s)
  {
  }

  function Insert(x: string, s: seq<string>): (r: seq<string>)
    requires Sorted(s)
    ensures Sorted(r)
    ensures multiset(r) == multiset(s) + multiset{x}
    decreases |s|
  {
    if s == [] then [x]
    else if !Below(s[0], x) then
      HeadBound(s, x);
      ConsSorted(x, s);
      [x] + s
    else
      var rest := Insert(x, s[1..]);
      assert s == [s[0]] + s[1..];
      assert forall j :: 0 <= j < |rest| ==> !Below(rest[j], s[0]) by {
        forall j | 0 <= j < |rest| ensures !Below(rest[j], s[0]) {
          assert rest[j] in multiset(rest);
          if rest[j] == x {
            BelowAsymmetric(s[0], x);
          } else {
            assert rest[j] in s[1..];
          }
        }
      }
      ConsSorted(s[0], rest);
      assert multiset([s[0]] + rest) == multiset{s[0]} + multiset(rest);
      [s[0]] + rest
  }

  /** A new head keeps a list free of duplicates. */
  lemma ConsNoDuplicates(h: string, s: seq<string>)
    requires h !in s && NoDuplicates(s)
    ensures NoDuplicates([h] + s)
  {
    forall i, j | 0 <= i < j < |[h] + s| ensures ([h] + s)[i] != ([h] + s)[j] {
      if i == 0 {
        assert ([h] + s)[j] == s[j - 1];
      } else {
        assert ([h] + s)[i] == s[i - 1] && ([h] + s)[j] == s[j - 1];
      }
    }
  }

  /** Inserting a new name keeps the list free of duplicates. */
  lemma {:induction false} InsertNoDuplicates(x: string, s: seq<string>)
    requires Sorted(s) && x !in s && NoDuplicates(s)
    ensures NoDuplicates(Insert(x, s))
    decreases |s|
  {
    if s == [] {
    } else if !Below(s[0], x) {
      ConsNoDuplicates(x, s);
    } else {
      assert s == [s[0]] + s[1..];
      InsertNoDuplicates(x, s[1..]);
      var rest := Insert(x, s[1..]);
      assert s[0] != x;
      assert s[0] !in multiset(s[1..]);
      assert s[0] !in multiset(rest);
      ConsNoDuplicates(s[0], rest);
    }
  }

  /** `sort()` on the keys: ascending, the same names with the same multiplicity. */
  function SortStrings(s: seq<string>): (r: seq<string>)
    ensures Sorted(r)
    ensures multiset(r) == multiset(s)
    ensures NoDuplicates(s) ==> NoDuplicates(r)
    decreases |s|
  {
    if s == [] then []
    else
      assert s == [s[0]] + s[1..];
      var rest := SortStrings(s[1..]);
      if NoDuplicates(s) then
        assert s[0] !in multiset(s[1..]);
        InsertNoDuplicates(s[0], rest);
        Insert(s[0], rest)
      else
        Insert(s[0], rest)
  }

  /** Distinct keys sort into a strictly ascending list. */
  lemma StrictlyAscending(s: seq<string>)
    requires NoDuplicates(s)
    ensures forall i, j :: 0 <= i < j < |SortStrings(s)| ==> Below(SortStrings(s)[i], SortStrings(s)[j])
  {
    var r := SortStrings(s);
    forall i, j | 0 <= i < j < |r| ensures Below(r[i], r[j]) {
      BelowTotal(r[i], r[j]);
    }
  }

  /** Sorting neither adds nor drops a name. */
  lemma SortKeepsNames(s: seq<string>)
    ensures forall x :: x in SortStrings(s) <==> x in s
  {
    var r := SortStrings(s);
    forall x ensures x in r <==> x in s {
      assert x in r <==> x in multiset(r);
      assert x in s <==> x in multiset(s);
    }
  }

  /** Every font's family is a key, and every key is some font's family. */
  lemma FamiliesCovered(fonts: seq<FontData>)
    ensures forall i :: 0 <= i < |fonts| ==> fonts[i].metadata.family in Distinct(Families(fonts))
  {
    forall i | 0 <= i < |fonts| ensures fonts[i].metadata.family in Distinct(Families(fonts)) {
      assert Families(fonts)[i] == fonts[i].metadata.family;
    }
  }

  /** The grouped fonts and their sorted family names, as the list renders them. */
  datatype Listing = Listing(groups: map<string, seq<FontData>>, familyNames: seq<string>)

  /** `groupedFonts` and `familyNames` in a browser: `None` is the
      `TypeError` a family named after an `Object.prototype` member raises;
      otherwise the groups and the family names in ascending order. */
  method FamilyNames(filteredFonts: seq<FontData>) returns (listing: Option<Listing>)
    ensures listing.None? <==>
      exists i :: 0 <= i < |filteredFonts| && filteredFonts[i].metadata.family in PrototypeKeys
    ensures listing.Some? ==> var groups, familyNames := listing.value.groups, listing.value.familyNames;
      && (forall family :: family in familyNames <==> family in Families(filteredFonts))
      && (forall family :: family in groups <==> family in familyNames)
      && (forall i, j :: 0 <= i < j < |familyNames| ==> Below(familyNames[i], familyNames[j]))
      && (forall family :: family in familyNames ==>
            groups[family] == Group(filteredFonts, family) && |groups[family]| > 0)
      && SumSizes(filteredFonts, familyNames) == |filteredFonts|
  {
    var grouped := GroupByFamilyAsWritten(filteredFonts, PrototypeKeys);
    if grouped.None? {
      return None;
    }
    var groups := grouped.value;
    var _, keys := GroupByFamily(filteredFonts);
    DistinctNoDuplicates(Families(filteredFonts));
    var familyNames := SortStrings(keys);
    StrictlyAscending(keys);
    SortKeepsNames(keys);
    forall family | family in familyNames ensures |Group(filteredFonts, family)| > 0 {
      GroupsAreNonEmpty(filteredFonts, family);
    }
    FamiliesCovered(filteredFonts);
    GroupSizesSum(filteredFonts, familyNames);
    forall family | family in Families(filteredFonts) ensures family in groups {
      var i :| 0 <= i < |filteredFonts| && Families(filteredFonts)[i] == family;
    }
    listing := Some(Listing(groups, familyNames));
  }

  // ---------------------------------------------------------------------------
  // Empty state
  // ---------------------------------------------------------------------------

  datatype Overlay = NoSearchResults | Lobby

  /** The overlay over an empty list: the no-results message when a search
      term is set, the game lobby otherwise; none while fonts are listed. */
  function EmptyState(filteredFonts: seq<FontData>, searchTerm: string): (r: Option<Overlay>)
    ensures r.Some? <==> filteredFonts == []
    ensures r == Some(NoSearchResults) <==> filteredFonts == [] && searchTerm != ""
    ensures r == Some(Lobby) <==> filteredFonts == [] && searchTerm == ""
  {
    if |filteredFonts| == 0 then
      if searchTerm != "" then Some(NoSearchResults) else Some(Lobby)
    else None
  }
}
