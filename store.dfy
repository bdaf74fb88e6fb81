/** The catalog store (src/store/useStore.ts): the pure catalog filter
    `filterFonts` and the store actions that replace the catalog fields. The
    store is a class whose fields are the state slices the actions write;
    persistence, toasts and the context menu are not part of it. */
module CatalogStore {
  import opened Common
  import opened FontTypes

  /** The accent colour used whenever the requested one is not `#rrggbb`. */
  const DefaultAccent: string := "#00E676"

  // ---------------------------------------------------------------------------
  // filterFonts
  // ---------------------------------------------------------------------------

  /** `k` is the position of the first collection with id `id`. */
  predicate FirstWithId(collections: seq<Collection>, id: string, k: int) {
    0 <= k < |collections| && collections[k].id == id
    && forall j :: 0 <= j < k ==> collections[j].id != id
  }

  /** `collections.find(c => c.id === id)`: the first collection with that id. */
  function FindCollection(collections: seq<Collection>, id: string): (r: Option<Collection>)
    ensures r.None? <==> forall c :: c in collections ==> c.id != id
    ensures forall k :: FirstWithId(collections, id, k) ==> r == Some(collections[k])
    decreases |collections|
  {
    if collections == [] then None
    else if collections[0].id == id then Some(collections[0])
    else
      var r := FindCollection(collections[1..], id);
      assert forall k :: FirstWithId(collections, id, k) ==> FirstWithId(collections[1..], id, k - 1);
      r
  }

  /** The position of the first collection with id `id`, when there is one. */
  function FirstMatch(collections: seq<Collection>, id: string): (k: nat)
    requires exists k :: 0 <= k < |collections| && collections[k].id == id
    ensures FirstWithId(collections, id, k)
    decreases |collections|
  {
    if collections[0].id == id then 0
    else
      assert exists k :: 0 <= k < |collections[1..]| && collections[1..][k].id == id by {
        var k :| 0 <= k < |collections| && collections[k].id == id;
        assert collections[1..][k - 1].id == id;
      }
      1 + FirstMatch(collections[1..], id)
  }

  /** What a provider choice admits, font by font: the tag keywords, the
      favorites list, `all`, and otherwise the collection with that id. A
      provider naming no collection admits every font. */
  predicate ProviderAdmits(f: FontData, provider: string, favorites: seq<string>,
                           collections: seq<Collection>)
  {
    if provider == "local" then "local" in f.tags
    else if provider == "google" then "google" in f.tags
    else if provider == "added" then "local" !in f.tags && "google" !in f.tags
    else if provider == "favorites" then f.id in favorites
    else if provider == "all" then true
    else
      var target := FindCollection(collections, provider);
      target.None? || f.id in target.value.fontIds
  }

  /** Case-insensitive match of the search text on family or subfamily. */
  predicate MatchesTerm(f: FontData, term: string) {
    || Contains(ToLower(f.metadata.family), ToLower(term))
    || Contains(ToLower(f.metadata.subfamily), ToLower(term))
  }

  /** A font is listed when its provider admits it and the search term is
      empty or matches it. */
  predicate Visible(f: FontData, term: string, provider: string, favorites: seq<string>,
                    collections: seq<Collection>)
  {
    ProviderAdmits(f, provider, favorites, collections) && (term == "" || MatchesTerm(f, term))
  }

  /** The provider narrowing step of `filterFonts`. */
  function NarrowByProvider(fonts: seq<FontData>, provider: string, favorites: seq<string>,
                            collections: seq<Collection>): (r: seq<FontData>)
    ensures r == Filter(fonts, (f: FontData) => ProviderAdmits(f, provider, favorites, collections))
  {
    var admits := (f: FontData) => ProviderAdmits(f, provider, favorites, collections);
    if provider == "local" then
      var r := Filter(fonts, (f: FontData) => "local" in f.tags);
      FilterCongruent(fonts, (f: FontData) => "local" in f.tags, admits);
      r
    else if provider == "google" then
      var r := Filter(fonts, (f: FontData) => "google" in f.tags);
      FilterCongruent(fonts, (f: FontData) => "google" in f.tags, admits);
      r
    else if provider == "added" then
      var r := Filter(fonts, (f: FontData) => "local" !in f.tags && "google" !in f.tags);
      FilterCongruent(fonts, (f: FontData) => "local" !in f.tags && "google" !in f.tags, admits);
      r
    else if provider == "favorites" then
      var r := Filter(fonts, (f: FontData) => f.id in favorites);
      FilterCongruent(fonts, (f: FontData) => f.id in favorites, admits);
      r
    else if provider != "all" && FindCollection(collections, provider).Some? then
      var target := FindCollection(collections, provider).value;
      var r := Filter(fonts, (f: FontData) => f.id in target.fontIds);
      FilterCongruent(fonts, (f: FontData) => f.id in target.fontIds, admits);
      r
    else
      FilterAllPass(fonts, admits);
      fonts
  }

  /** `filterFonts(fonts, term, provider, favorites, collections)`: provider
      narrowing, then the search, keeping catalog order. The result is
      exactly the visible fonts of the catalog, in catalog order. */
  function FilterFonts(fonts: seq<FontData>, term: string, provider: string,
                       favorites: seq<string>, collections: seq<Collection>): (r: seq<FontData>)
    ensures r == Filter(fonts, (f: FontData) => Visible(f, term, provider, favorites, collections))
    ensures IsSubsequence(r, fonts)
    ensures forall f :: f in r <==> f in fonts && Visible(f, term, provider, favorites, collections)
  {
    var admits := (f: FontData) => ProviderAdmits(f, provider, favorites, collections);
    var visible := (f: FontData) => Visible(f, term, provider, favorites, collections);
    var constrained := NarrowByProvider(fonts, provider, favorites, collections);
    FilterIsSubsequence(fonts, visible);
    if term == "" then
      FilterCongruent(fonts, admits, visible);
      constrained
    else
      var r := Filter(constrained, (f: FontData) => MatchesTerm(f, term));
      FilterFilter(fonts, admits, (f: FontData) => MatchesTerm(f, term), visible);
      r
  }

  /** The provider keywords: `local` and `google` keep the fonts with that
      tag, `added` those with neither, `favorites` those whose id is a
      favorite, `all` every font. */
  lemma ProviderKeywords(f: FontData, fonts: seq<FontData>, favorites: seq<string>,
                         collections: seq<Collection>)
    requires f in fonts
    ensures f in FilterFonts(fonts, "", "local", favorites, collections) <==> "local" in f.tags
    ensures f in FilterFonts(fonts, "", "google", favorites, collections) <==> "google" in f.tags
    ensures f in FilterFonts(fonts, "", "added", favorites, collections)
      <==> "local" !in f.tags && "google" !in f.tags
    ensures f in FilterFonts(fonts, "", "favorites", favorites, collections) <==> f.id in favorites
    ensures FilterFonts(fonts, "", "all", favorites, collections) == fonts
  {
    FilterAllPass(fonts, (f: FontData) => Visible(f, "", "all", favorites, collections));
  }

  /** A provider id naming no collection narrows nothing: with an empty
      search the whole catalog is listed. */
  lemma UnknownCollectionKeepsAll(fonts: seq<FontData>, provider: string, favorites: seq<string>,
                                  collections: seq<Collection>)
    requires provider !in ["local", "google", "added", "favorites"]
    requires forall c :: c in collections ==> c.id != provider
    ensures FilterFonts(fonts, "", provider, favorites, collections) == fonts
  {
    FilterAllPass(fonts, (f: FontData) => Visible(f, "", provider, favorites, collections));
  }

  /** A collection id keeps exactly the fonts listed by the first
      collection with that id. */
  lemma CollectionNarrows(f: FontData, fonts: seq<FontData>, favorites: seq<string>,
                          collections: seq<Collection>, k: nat)
    requires f in fonts
    requires k < |collections|
    requires collections[k].id !in ["local", "google", "added", "favorites", "all"]
    requires forall j :: 0 <= j < k ==> collections[j].id != collections[k].id
    ensures f in FilterFonts(fonts, "", collections[k].id, favorites, collections)
      <==> f.id in collections[k].fontIds
  {
    assert FirstWithId(collections, collections[k].id, k);
  }

  /** Searching only ever narrows: the search result is a part of the
      provider's list, and an empty term changes nothing. */
  lemma SearchNarrows(fonts: seq<FontData>, term: string, provider: string,
                      favorites: seq<string>, collections: seq<Collection>)
    ensures var all := FilterFonts(fonts, "", provider, favorites, collections);
      forall f :: f in FilterFonts(fonts, term, provider, favorites, collections) ==> f in all
    ensures var all := FilterFonts(fonts, "", provider, favorites, collections);
      forall f :: f in all ==> (f in FilterFonts(fonts, term, provider, favorites, collections)
        <==> term == "" || MatchesTerm(f, term))
  {
  }

  // ---------------------------------------------------------------------------
  // addFonts and the persistence merge
  // ---------------------------------------------------------------------------

  /** `state.fonts.some(f => f.hash === h)`. */
  predicate HashKnown(fonts: seq<FontData>, h: Option<string>) {
    exists i :: 0 <= i < |fonts| && fonts[i].hash == h
  }

  /** The incoming fonts whose hash no catalog font has, in incoming order.
      Only the catalog is consulted: two equal hashes in one batch both pass. */
  function UniqueByHash(existing: seq<FontData>, incoming: seq<FontData>): (r: seq<FontData>)
    ensures r == Filter(incoming, (nf: FontData) => !HashKnown(existing, nf.hash))
    ensures IsSubsequence(r, incoming)
    ensures forall f :: f in r <==> f in incoming && !HashKnown(existing, f.hash)
  {
    var unseenHash := (nf: FontData) => !HashKnown(existing, nf.hash);
    FilterIsSubsequence(incoming, unseenHash);
    FilterCongruent(incoming, unseenHash, (nf: FontData) => !HashKnown(existing, nf.hash));
    Filter(incoming, unseenHash)
  }

  /** Adding the same batch a second time adds nothing. */
  lemma AddFontsTwiceAddsNothing(existing: seq<FontData>, batch: seq<FontData>)
    ensures UniqueByHash(existing + UniqueByHash(existing, batch), batch) == []
  {
    var added := UniqueByHash(existing, batch);
    var grown := existing + added;
    forall nf | nf in batch ensures HashKnown(grown, nf.hash) {
      if HashKnown(existing, nf.hash) {
        var i :| 0 <= i < |existing| && existing[i].hash == nf.hash;
        assert grown[i] == existing[i];
      } else {
        var j :| 0 <= j < |added| && added[j] == nf;
        assert grown[|existing| + j] == nf;
      }
    }
    var r := UniqueByHash(grown, batch);
    assert forall i :: 0 <= i < |r| ==> r[i] in r;
  }

  /** Equal hashes inside one batch are not deduplicated against each other. */
  lemma BatchDuplicatesKept(existing: seq<FontData>, f: FontData)
    requires forall g :: g in existing ==> g.hash != f.hash
    ensures UniqueByHash(existing, [f, f]) == [f, f]
  {
    assert [f, f][1..] == [f];
    assert [f][1..] == [];
  }

  /** Every remote record carries the empty hash, so once one is in the
      catalog every further remote record is dropped, whatever font it is. */
  lemma EmptyHashCollides(existing: seq<FontData>, incoming: seq<FontData>)
    requires HashKnown(existing, Some(""))
    ensures forall f :: f in UniqueByHash(existing, incoming) ==> f.hash != Some("")
  {
  }

  /** `state.fonts.some(f => f.id === id)`. */
  predicate IdKnown(fonts: seq<FontData>, id: string) {
    exists i :: 0 <= i < |fonts| && fonts[i].id == id
  }

  /** The fonts of `saved` whose id no catalog font has, in saved order. */
  function MergeById(existing: seq<FontData>, saved: seq<FontData>): (r: seq<FontData>)
    ensures r == Filter(saved, (sf: FontData) => !IdKnown(existing, sf.id))
    ensures IsSubsequence(r, saved)
    ensures forall f :: f in r <==> f in saved && !IdKnown(existing, f.id)
  {
    var unseen := (sf: FontData) => !IdKnown(existing, sf.id);
    FilterIsSubsequence(saved, unseen);
    FilterCongruent(saved, unseen, (sf: FontData) => !IdKnown(existing, sf.id));
    Filter(saved, unseen)
  }

  /** Loading the same saved fonts twice adds nothing the second time. */
  lemma MergeTwiceAddsNothing(existing: seq<FontData>, saved: seq<FontData>)
    ensures MergeById(existing + MergeById(existing, saved), saved) == []
  {
    var added := MergeById(existing, saved);
    var grown := existing + added;
    forall sf | sf in saved ensures IdKnown(grown, sf.id) {
      if IdKnown(existing, sf.id) {
        var i :| 0 <= i < |existing| && existing[i].id == sf.id;
        assert grown[i] == existing[i];
      } else {
        var j :| 0 <= j < |added| && added[j] == sf;
        assert grown[|existing| + j] == sf;
      }
    }
    var r := MergeById(grown, saved);
    assert forall i :: 0 <= i < |r| ==> r[i] in r;
  }

  /** The two merges use different keys: a re-exported copy of a font (same
      hash, new id) is dropped by `addFonts` but kept by the persistence
      merge, and a different font stored under a used id is the reverse. */
  lemma MergeKeysDiffer(f: FontData, copy: FontData)
    requires copy.hash == f.hash && copy.id != f.id
    ensures UniqueByHash([f], [copy]) == []
    ensures MergeById([f], [copy]) == [copy]
  {
    assert [copy][1..] == [];
    assert [f][0].hash == copy.hash;
    assert HashKnown([f], copy.hash);
    assert !IdKnown([f], copy.id);
  }

  // ---------------------------------------------------------------------------
  // Favorites, collections, accent colour
  // ---------------------------------------------------------------------------

  /** `toggleFavorite`'s new list: every occurrence removed if present,
      otherwise appended at the end. */
  function Toggled(favorites: seq<string>, id: string): (r: seq<string>)
    ensures id in r <==> id !in favorites
    ensures Filter(r, (x: string) => x != id) == Filter(favorites, (x: string) => x != id)
    ensures id !in favorites ==> r == favorites + [id]
  {
    if id in favorites then
      var keep := (x: string) => x != id;
      var r := Filter(favorites, keep);
      FilterFilter(favorites, keep, keep, keep);
      r
    else
      FilterAppend(favorites, [id], (x: string) => x != id);
      assert Filter([id], (x: string) => x != id) == [];
      favorites + [id]
  }

  /** Toggling a non-favorite twice restores the list. */
  lemma ToggleTwice(favorites: seq<string>, id: string)
    requires id !in favorites
    ensures Toggled(Toggled(favorites, id), id) == favorites
  {
    var once := favorites + [id];
    FilterAppend(favorites, [id], (x: string) => x != id);
    assert Filter([id], (x: string) => x != id) == [];
    FilterAllPass(favorites, (x: string) => x != id);
  }

  /** `addToCollection`'s new list: `fId` appended to every collection with
      id `cId` (even when already listed), the others untouched. */
  function AddToCollections(collections: seq<Collection>, cId: string, fId: string): (r: seq<Collection>)
    ensures |r| == |collections|
    ensures forall i :: 0 <= i < |r| ==> r[i].id == collections[i].id && r[i].name == collections[i].name
    ensures forall i :: 0 <= i < |r| && collections[i].id == cId ==>
      r[i].fontIds == collections[i].fontIds + [fId]
    ensures forall i :: 0 <= i < |r| && collections[i].id != cId ==> r[i] == collections[i]
    decreases |collections|
  {
    if collections == [] then []
    else
      var c := collections[0];
      var head := if c.id == cId then c.(fontIds := c.fontIds + [fId]) else c;
      [head] + AddToCollections(collections[1..], cId, fId)
  }

  /** `deleteCollection`'s new list: exactly the collections with another id. */
  function DeleteCollections(collections: seq<Collection>, cId: string): (r: seq<Collection>)
    ensures r == Filter(collections, (c: Collection) => c.id != cId)
    ensures IsSubsequence(r, collections)
    ensures forall c :: c in r <==> c in collections && c.id != cId
  {
    var kept := (c: Collection) => c.id != cId;
    FilterIsSubsequence(collections, kept);
    FilterCongruent(collections, kept, (c: Collection) => c.id != cId);
    Filter(collections, kept)
  }

  /** After `addToCollection(cId, fId)`, listing collection `cId` shows every
      font with id `fId`. */
  lemma AddedFontIsListed(fonts: seq<FontData>, f: FontData, favorites: seq<string>,
                          collections: seq<Collection>, cId: string, fId: string)
    requires f in fonts && f.id == fId
    requires cId !in ["local", "google", "added", "favorites", "all"]
    ensures f in FilterFonts(fonts, "", cId, favorites, AddToCollections(collections, cId, fId))
  {
    var updated := AddToCollections(collections, cId, fId);
    if exists k :: 0 <= k < |updated| && updated[k].id == cId {
      var k := FirstMatch(updated, cId);
      assert FirstWithId(updated, cId, k);
      assert updated[k].fontIds == collections[k].fontIds + [fId];
      assert fId in updated[k].fontIds;
    }
  }

  /** After deleting the collection being viewed, its id names no
      collection, so the list it selects is the whole catalog. */
  lemma DeletedCollectionShowsAll(fonts: seq<FontData>, favorites: seq<string>,
                                  collections: seq<Collection>, cId: string)
    requires cId !in ["local", "google", "added", "favorites"]
    ensures FilterFonts(fonts, "", cId, favorites, DeleteCollections(collections, cId)) == fonts
  {
    UnknownCollectionKeepsAll(fonts, cId, favorites, DeleteCollections(collections, cId));
  }

  /** A hex digit in either case. */
  predicate IsHexLetterOrDigit(c: char) {
    '0' <= c <= '9' || 'a' <= c <= 'f' || 'A' <= c <= 'F'
  }

  /** `/^#[0-9A-Fa-f]{6}$/`. */
  predicate IsHexColor(s: string) {
    |s| == 7 && s[0] == '#' && forall i :: 1 <= i < 7 ==> IsHexLetterOrDigit(s[i])
  }

  /** `setAccentColor`'s stored value: the input if it is `#rrggbb`, the
      default green otherwise. */
  function ValidAccent(color: string): (r: string)
    ensures IsHexColor(r)
    ensures r == color <==> IsHexColor(color)
    ensures r != color ==> r == DefaultAccent
  {
    assert IsHexColor(DefaultAccent);
    if IsHexColor(color) then color else DefaultAccent
  }

  // ---------------------------------------------------------------------------
  // The store
  // ---------------------------------------------------------------------------

  class Store {
    var isInitialLoad: bool
    var fonts: seq<FontData>
    var filteredFonts: seq<FontData>
    var collections: seq<Collection>
    var favorites: seq<string>
    var activeProvider: string
    var searchTerm: string
    var accentColor: string
    var listScrollTop: int
    var listPage: int

    /** The listed fonts are the filter of the current state. */
    predicate Synced()
      reads this
    {
      filteredFonts == FilterFonts(fonts, searchTerm, activeProvider, favorites, collections)
    }

    constructor()
      ensures isInitialLoad && fonts == [] && filteredFonts == [] && collections == []
      ensures favorites == [] && activeProvider == "all" && searchTerm == ""
      ensures accentColor == DefaultAccent && listScrollTop == 0 && listPage == 1
      ensures Synced()
    {
      isInitialLoad := true;
      fonts := [];
      filteredFonts := [];
      collections := [];
      favorites := [];
      activeProvider := "all";
      searchTerm := "";
      accentColor := DefaultAccent;
      listScrollTop := 0;
      listPage := 1;
    }

    /** Recomputes the listed fonts from the rest of the state. */
    method Refilter()
      modifies this
      ensures Synced()
      ensures fonts == old(fonts) && collections == old(collections) && favorites == old(favorites)
      ensures activeProvider == old(activeProvider) && searchTerm == old(searchTerm)
      ensures accentColor == old(accentColor) && isInitialLoad == old(isInitialLoad)
      ensures listScrollTop == old(listScrollTop) && listPage == old(listPage)
    {
      filteredFonts := FilterFonts(fonts, searchTerm, activeProvider, favorites, collections);
    }

    /** `addFonts`: the catalog grows by the incoming fonts with a new hash,
        and the list is refiltered. */
    method AddFonts(newFonts: seq<FontData>)
      modifies this
      ensures fonts == old(fonts) + UniqueByHash(old(fonts), newFonts)
      ensures Synced()
      ensures collections == old(collections) && favorites == old(favorites)
      ensures activeProvider == old(activeProvider) && searchTerm == old(searchTerm)
      ensures accentColor == old(accentColor) && isInitialLoad == old(isInitialLoad)
      ensures listScrollTop == old(listScrollTop) && listPage == old(listPage)
    {
      fonts := fonts + UniqueByHash(fonts, newFonts);
      Refilter();
    }

    /** `setSearchTerm`: new term, refiltered list, scroll and page reset. */
    method SetSearchTerm(term: string)
      modifies this
      ensures searchTerm == term && Synced()
      ensures listScrollTop == 0 && listPage == 1
      ensures fonts == old(fonts) && collections == old(collections) && favorites == old(favorites)
      ensures activeProvider == old(activeProvider) && accentColor == old(accentColor)
      ensures isInitialLoad == old(isInitialLoad)
    {
      searchTerm := term;
      listScrollTop := 0;
      listPage := 1;
      Refilter();
    }

    /** `setActiveProvider`: new provider, refiltered list, scroll and page reset. */
    method SetActiveProvider(provider: string)
      modifies this
      ensures activeProvider == provider && Synced()
      ensures listScrollTop == 0 && listPage == 1
      ensures fonts == old(fonts) && collections == old(collections) && favorites == old(favorites)
      ensures searchTerm == old(searchTerm) && accentColor == old(accentColor)
      ensures isInitialLoad == old(isInitialLoad)
    {
      activeProvider := provider;
      listScrollTop := 0;
      listPage := 1;
      Refilter();
    }

    /** `toggleFavorite`: the favorite flag of `fId` flips and the list is
        refiltered. */
    method ToggleFavorite(fId: string)
      modifies this
      ensures favorites == Toggled(old(favorites), fId)
      ensures fId in favorites <==> fId !in old(favorites)
      ensures Synced()
      ensures fonts == old(fonts) && collections == old(collections)
      ensures activeProvider == old(activeProvider) && searchTerm == old(searchTerm)
      ensures accentColor == old(accentColor) && isInitialLoad == old(isInitialLoad)
      ensures listScrollTop == old(listScrollTop) && listPage == old(listPage)
    {
      favorites := Toggled(favorites, fId);
      Refilter();
    }

    /** `createCollection(name)`; `newId` is the value of `crypto.randomUUID()`.
        The listed fonts are not refiltered. */
    method CreateCollection(name: string, newId: string)
      modifies this
      ensures collections == old(collections) + [Collection(newId, name, [])]
      ensures fonts == old(fonts) && filteredFonts == old(filteredFonts) && favorites == old(favorites)
      ensures activeProvider == old(activeProvider) && searchTerm == old(searchTerm)
      ensures accentColor == old(accentColor) && isInitialLoad == old(isInitialLoad)
      ensures listScrollTop == old(listScrollTop) && listPage == old(listPage)
    {
      collections := collections + [Collection(newId, name, [])];
    }

    /** `deleteCollection(cId)`; the listed fonts are not refiltered. */
    method DeleteCollection(cId: string)
      modifies this
      ensures collections == DeleteCollections(old(collections), cId)
      ensures fonts == old(fonts) && filteredFonts == old(filteredFonts) && favorites == old(favorites)
      ensures activeProvider == old(activeProvider) && searchTerm == old(searchTerm)
      ensures accentColor == old(accentColor) && isInitialLoad == old(isInitialLoad)
      ensures listScrollTop == old(listScrollTop) && listPage == old(listPage)
    {
      collections := DeleteCollections(collections, cId);
    }

    /** `addToCollection(cId, fId)`; the listed fonts are not refiltered. */
    method AddToCollection(cId: string, fId: string)
      modifies this
      ensures collections == AddToCollections(old(collections), cId, fId)
      ensures fonts == old(fonts) && filteredFonts == old(filteredFonts) && favorites == old(favorites)
      ensures activeProvider == old(activeProvider) && searchTerm == old(searchTerm)
      ensures accentColor == old(accentColor) && isInitialLoad == old(isInitialLoad)
      ensures listScrollTop == old(listScrollTop) && listPage == old(listPage)
    {
      collections := AddToCollections(collections, cId, fId);
    }

    /** `setAccentColor(color)`. */
    method SetAccentColor(color: string)
      modifies this
      ensures accentColor == ValidAccent(color) && IsHexColor(accentColor)
      ensures fonts == old(fonts) && filteredFonts == old(filteredFonts)
      ensures collections == old(collections) && favorites == old(favorites)
      ensures activeProvider == old(activeProvider) && searchTerm == old(searchTerm)
      ensures isInitialLoad == old(isInitialLoad)
      ensures listScrollTop == old(listScrollTop) && listPage == old(listPage)
    {
      accentColor := ValidAccent(color);
    }

    /** The state step of `loadFromPersistence`. `consent` is the stored
        consent status, `revived` the saved fonts after their URLs were
        recreated, `savedCollections` the stored collections, and
        `savedFavorites` / `savedAccent` the stored settings (`None` when
        absent). The saved accent colour is taken as stored, without the
        validation `setAccentColor` applies. */
    method LoadFromPersistence(consent: bool, revived: seq<FontData>, savedCollections: seq<Collection>,
                               savedFavorites: Option<seq<string>>, savedAccent: Option<string>)
      modifies this
      ensures !isInitialLoad
      ensures activeProvider == old(activeProvider) && searchTerm == old(searchTerm)
      ensures !consent ==> (fonts == old(fonts) && filteredFonts == old(filteredFonts)
        && collections == old(collections) && favorites == old(favorites)
        && accentColor == old(accentColor)
        && listScrollTop == old(listScrollTop) && listPage == old(listPage))
      ensures consent ==> fonts == old(fonts) + MergeById(old(fonts), revived)
      ensures consent ==> favorites == savedFavorites.GetOr(old(favorites))
      ensures consent ==> collections == (if |savedCollections| > 0 then savedCollections else old(collections))
      ensures consent ==> accentColor == (if savedAccent.Some? && savedAccent.value != "" then savedAccent.value
                                          else old(accentColor))
      ensures consent ==> Synced() && listScrollTop == 0 && listPage == 1
    {
      isInitialLoad := false;
      if consent {
        Restore(revived, savedCollections, savedFavorites, savedAccent);
        Refilter();
      }
    }

    /** The stored state the consented branch of `loadFromPersistence` takes
        over: saved fonts with a new id are appended, stored settings replace
        the current ones, and the list returns to the top. */
    method Restore(revived: seq<FontData>, savedCollections: seq<Collection>,
                   savedFavorites: Option<seq<string>>, savedAccent: Option<string>)
      modifies this
      ensures fonts == old(fonts) + MergeById(old(fonts), revived)
      ensures favorites == savedFavorites.GetOr(old(favorites))
      ensures collections == (if |savedCollections| > 0 then savedCollections else old(collections))
      ensures accentColor == (if savedAccent.Some? && savedAccent.value != "" then savedAccent.value
                              else old(accentColor))
      ensures listScrollTop == 0 && listPage == 1
      ensures activeProvider == old(activeProvider) && searchTerm == old(searchTerm)
      ensures isInitialLoad == old(isInitialLoad) && filteredFonts == old(filteredFonts)
    {
      var allFonts := fonts + MergeById(fonts, revived);
      var favs := savedFavorites.GetOr(favorites);
      var cols := if |savedCollections| > 0 then savedCollections else collections;
      var accent := if savedAccent.Some? && savedAccent.value != "" then savedAccent.value else accentColor;
      fonts, favorites, collections, accentColor, listScrollTop, listPage := allFonts, favs, cols, accent, 0, 1;
    }
  }

  /** The collection actions do not refilter: adding the viewed font to the
      viewed collection leaves the synced list stale. */
  lemma AddToViewedCollectionIsStale()
    ensures var f := FontData("f1", None, "", FontMetadata("A", "Regular", "A", "A", None, "TTF",
                               None, None, None, None, None), [], None);
      var before := [Collection("c1", "Mine", [])];
      var listed := FilterFonts([f], "", "c1", [], before);
      listed == [] && FilterFonts([f], "", "c1", [], AddToCollections(before, "c1", "f1")) == [f]
  {
    var f := FontData("f1", None, "", FontMetadata("A", "Regular", "A", "A", None, "TTF",
                      None, None, None, None, None), [], None);
    var before := [Collection("c1", "Mine", [])];
    var after := AddToCollections(before, "c1", "f1");
    assert FindCollection(before, "c1") == Some(before[0]);
    assert FindCollection(after, "c1") == Some(after[0]);
    assert f !in FilterFonts([f], "", "c1", [], before);
    assert f in FilterFonts([f], "", "c1", [], after);
    assert |FilterFonts([f], "", "c1", [], after)| <= 1;
  }
}
