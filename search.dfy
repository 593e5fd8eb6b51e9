/**
 * The list the editor shows (`renderMemories` without its markup): optionally only
 * favourites, then only entries whose lower-cased text contains the lower-cased,
 * trimmed query.
 */
module Search {
  import opened Entries
  import opened Text
  import opened Seqs

  /** `${m.title} ${m.description} ${(m.tags||[]).join(' ')}` */
  function SearchText(e: Entry): string
  {
    e.title + " " + e.description + " " + Join(e.tags, " ")
  }

  /** The title, the description and every tag can be found in an entry's search text. */
  lemma SearchTextContains(e: Entry)
    ensures Contains(SearchText(e), e.title) && Contains(SearchText(e), e.description)
    ensures forall k :: 0 <= k < |e.tags| ==> Contains(SearchText(e), e.tags[k])
  {
    var tags := Join(e.tags, " ");
    assert OccursAt(e.title, e.title, 0) && OccursAt(e.description, e.description, 0);
    ContainsWithin([], e.title, " " + e.description + " " + tags, e.title);
    assert [] + e.title + (" " + e.description + " " + tags) == SearchText(e);
    ContainsWithin(e.title + " ", e.description, " " + tags, e.description);
    assert e.title + " " + e.description + (" " + tags) == SearchText(e);
    JoinContains(e.tags, " ");
    forall k | 0 <= k < |e.tags|
      ensures Contains(SearchText(e), e.tags[k])
    {
      ContainsWithin(e.title + " " + e.description + " ", tags, [], e.tags[k]);
      assert e.title + " " + e.description + " " + tags + [] == SearchText(e);
    }
  }

  /** `(searchInput.value || '').toLowerCase().trim()`; an absent search box reads as "". */
  function NormalizeQuery(raw: string): (q: string)
    ensures Trimmed(q) && |q| <= |raw|
    ensures forall i :: 0 <= i < |q| ==> !('A' <= q[i] <= 'Z')
  {
    TrimNoCapitals(Lower(raw));
    Trim(Lower(raw))
  }

  /** Trimming cuts a slice, so it cannot bring back a capital letter. */
  lemma TrimNoCapitals(l: string)
    requires forall i :: 0 <= i < |l| ==> !('A' <= l[i] <= 'Z')
    ensures forall i :: 0 <= i < |Trim(l)| ==> !('A' <= Trim(l)[i] <= 'Z')
  {
    SliceNoCapitals(l, Trim(l), LeadingEnd(l, 0));
  }

  lemma SliceNoCapitals(l: string, q: string, a: nat)
    requires a + |q| <= |l| && q == l[a..a + |q|]
    requires forall i :: 0 <= i < |l| ==> !('A' <= l[i] <= 'Z')
    ensures forall i :: 0 <= i < |q| ==> !('A' <= q[i] <= 'Z')
  {
    forall i | 0 <= i < |q|
      ensures !('A' <= q[i] <= 'Z')
    {
      assert q[i] == l[a + i];
    }
  }

  /** Whether an entry belongs in the list for the normalised query `q`. */
  predicate Shown(e: Entry, q: string, favoritesOnly: bool)
  {
    && (favoritesOnly ==> e.favorite)
    && (q != "" ==> Contains(Lower(SearchText(e)), q))
  }

  /** The favourites step followed by the query step lists exactly the entries `Shown` admits. */
  lemma TwoFilters(all: seq<Entry>, favorites: seq<Entry>, r: seq<Entry>, q: string, favoritesOnly: bool)
    requires IsSubsequence(favorites, all) && IsSubsequence(r, favorites)
    requires forall e: Entry :: multiset(favorites)[e] == if favoritesOnly ==> e.favorite then multiset(all)[e] else 0
    requires forall e: Entry ::
      multiset(r)[e] == if q != "" ==> Contains(Lower(SearchText(e)), q) then multiset(favorites)[e] else 0
    ensures IsSubsequence(r, all)
    ensures forall k :: 0 <= k < |r| ==> Shown(r[k], q, favoritesOnly)
    ensures forall e: Entry :: multiset(r)[e] == if Shown(e, q, favoritesOnly) then multiset(all)[e] else 0
  {
    SubsequenceTransitive(r, favorites, all);
    forall k | 0 <= k < |r|
      ensures Shown(r[k], q, favoritesOnly)
    {
      assert multiset(r)[r[k]] > 0;
    }
  }

  /** `if (showFavoritesOnly) filtered = filtered.filter(m => m.favorite)` */
  function Favorites(all: seq<Entry>, favoritesOnly: bool): (r: seq<Entry>)
    ensures IsSubsequence(r, all)
    ensures forall e: Entry :: multiset(r)[e] == if favoritesOnly ==> e.favorite then multiset(all)[e] else 0
  {
    SubsequenceOfSelf(all);
    if favoritesOnly then Filter(all, (m: Entry) => m.favorite) else all
  }

  /** `if (query) filtered = filtered.filter(m => text.includes(query))` */
  function Matching(ms: seq<Entry>, q: string): (r: seq<Entry>)
    ensures IsSubsequence(r, ms)
    ensures forall e: Entry ::
      multiset(r)[e] == if q != "" ==> Contains(Lower(SearchText(e)), q) then multiset(ms)[e] else 0
  {
    SubsequenceOfSelf(ms);
    if q != "" then Filter(ms, (m: Entry) => Contains(Lower(SearchText(m)), q)) else ms
  }

  function Visible(all: seq<Entry>, rawQuery: string, favoritesOnly: bool): (r: seq<Entry>)
    ensures IsSubsequence(r, all)
    ensures forall k :: 0 <= k < |r| ==> Shown(r[k], NormalizeQuery(rawQuery), favoritesOnly)
    ensures forall e: Entry ::
      multiset(r)[e] == if Shown(e, NormalizeQuery(rawQuery), favoritesOnly) then multiset(all)[e] else 0
  {
    var q := NormalizeQuery(rawQuery);
    var favorites := Favorites(all, favoritesOnly);
    var r := Matching(favorites, q);
    TwoFilters(all, favorites, r, q, favoritesOnly);
    r
  }

  lemma LowerKeepsSpace(raw: string)
    requires forall i :: 0 <= i < |raw| ==> IsSpace(raw[i])
    ensures forall i :: 0 <= i < |raw| ==> IsSpace(Lower(raw)[i])
  {
    forall i | 0 <= i < |raw|
      ensures IsSpace(Lower(raw)[i])
    {
      assert !('A' <= raw[i] <= 'Z');
    }
  }

  /** A query made only of whitespace filters nothing: without favourites-only, every entry is listed. */
  lemma BlankQueryShowsAll(all: seq<Entry>, raw: string)
    requires forall i :: 0 <= i < |raw| ==> IsSpace(raw[i])
    ensures Visible(all, raw, false) == all
  {
    LowerKeepsSpace(raw);
    TrimAfterSpaces(Lower(raw), []);
    assert Lower(raw) + [] == Lower(raw);
  }

  const Paris := Entry("1", "Paris trip", "2024-05-01", "eiffel", Wrappers.None, [], true, "t1")
  const Home := Entry("2", "Home", "2024-06-01", "garden", Wrappers.None, [], false, "t2")

  lemma LowerExact(raw: string, lowered: string)
    requires |raw| == |lowered| && forall i :: 0 <= i < |raw| ==> LowerChar(raw[i]) == lowered[i]
    ensures Lower(raw) == lowered
  {
  }

  lemma ExampleQueries()
    ensures NormalizeQuery("Paris") == "paris"
    ensures NormalizeQuery("Tokyo") == "tokyo"
  {
    LowerExact("Paris", "paris");
    LowerExact("Tokyo", "tokyo");
    assert Trimmed("paris") && Trimmed("tokyo");
  }

  lemma ExampleText()
    ensures Lower(SearchText(Paris)) == "paris trip eiffel "
  {
    assert SearchText(Paris) == "Paris trip eiffel ";
    LowerExact("Paris trip eiffel ", "paris trip eiffel ");
  }

  lemma NoTokyo(text: string)
    requires text == "paris trip eiffel "
    ensures !Contains(text, "tokyo")
  {
    assert "tokyo"[1] == 'o';
    MissingChar(text, "tokyo", 1);
  }

  /** A list holding exactly one copy of `e` and nothing else is `[e]`. */
  lemma OnlyOne(r: seq<Entry>, e: Entry)
    requires forall x: Entry :: multiset(r)[x] == if x == e then 1 else 0
    ensures r == [e]
  {
    assert multiset(r) == multiset{e};
    assert |r| == 1;
    assert r[0] in multiset(r);
  }

  /** A list with no copy of anything is empty. */
  lemma NoneLeft(r: seq<Entry>)
    requires forall x: Entry :: multiset(r)[x] == 0
    ensures r == []
  {
    assert multiset(r) == multiset{};
    assert |r| == |multiset(r)|;
  }

  lemma FavoritesExample()
    ensures Favorites([Paris, Home], true) == [Paris]
  {
    OnlyOne(Favorites([Paris, Home], true), Paris);
  }

  lemma MatchesParis()
    ensures Matching([Paris], "paris") == [Paris]
  {
    ExampleText();
    assert OccursAt(Lower(SearchText(Paris)), "paris", 0);
    OnlyOne(Matching([Paris], "paris"), Paris);
  }

  lemma MatchesNoTokyo()
    ensures Matching([Paris], "tokyo") == []
  {
    ExampleText();
    NoTokyo(Lower(SearchText(Paris)));
    NoneLeft(Matching([Paris], "tokyo"));
  }

  /** A favourite called "Paris trip" and a non-favourite "Home": with favourites-only, the query
      "Paris" lists the first alone and "Tokyo" lists nothing. */
  lemma ParisExample()
    ensures Visible([Paris, Home], "Paris", true) == [Paris]
    ensures Visible([Paris, Home], "Tokyo", true) == []
  {
    var all := [Paris, Home];
    assert Visible(all, "Paris", true) == Matching(Favorites(all, true), NormalizeQuery("Paris"));
    assert Visible(all, "Tokyo", true) == Matching(Favorites(all, true), NormalizeQuery("Tokyo"));
    ExampleQueries();
    FavoritesExample();
    MatchesParis();
    MatchesNoTokyo();
  }
}
