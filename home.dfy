/** HomePage: the search and view state kept in the query string, and the two
    lists the page derives from the search text (the book grid and the theme
    list). */
module Home {
  import opened Wrappers
  import opened Text
  import opened Seqs
  import opened Sorting
  import opened Content
  import opened Themes

  // ----- Search -----

  /** `text.toLowerCase().includes(search.toLowerCase())`. */
  function Matches(text: string, search: string): bool {
    Includes(Lower(text), Lower(search))
  }

  function BookMatches(book: Book, search: string): bool {
    Matches(book.name, search) || Matches(book.category, search)
  }

  /** `filteredBooks`: the books whose name or category contains the search
      text, ignoring case, in list order and with their multiplicity. */
  function FilteredBooks(books: seq<Book>, search: string): (r: seq<Book>)
    ensures IsSubsequence(r, books)
    ensures forall b :: b in r <==> b in books && BookMatches(b, search)
    ensures forall b :: multiset(r)[b] == if BookMatches(b, search) then multiset(books)[b] else 0
  {
    Filter(books, (b: Book) => BookMatches(b, search))
  }

  /** Every text contains the empty search. */
  lemma MatchesEmpty(text: string)
    ensures Matches(text, "")
  {
    assert Lower("") == "";
    IncludesEmpty(Lower(text));
  }

  /** With no search text the grid shows every book, in order. */
  lemma FilteredBooksEmptySearch(books: seq<Book>)
    ensures FilteredBooks(books, "") == books
  {
    forall b | b in books ensures BookMatches(b, "") {
      MatchesEmpty(b.name);
    }
    FilterAll(books, (b: Book) => BookMatches(b, ""));
  }

  /** Under per-character lower-casing, a book whose name contains the search
      text exactly is shown. */
  lemma FilteredBooksKeepsExactName(books: seq<Book>, search: string, b: Book)
    requires b in books && Includes(b.name, search)
    ensures b in FilteredBooks(books, search)
  {
    IncludesLower(b.name, search);
  }

  /** `sortedThemes`: `Object.keys(themesMap).sort().filter(...)`. */
  function SortedThemes(keys: seq<string>, search: string): seq<string> {
    Filter(Sort(keys), (t: string) => Matches(t, search))
  }

  /** The theme list is ascending, holds exactly the keys that contain the
      search text ignoring case, and, when the keys are distinct, is strictly
      ascending and so free of duplicates. */
  lemma SortedThemesSpec(keys: seq<string>, search: string)
    ensures Sorted(SortedThemes(keys, search))
    ensures forall t :: t in SortedThemes(keys, search) <==> t in keys && Matches(t, search)
    ensures Distinct(keys) ==> Distinct(SortedThemes(keys, search)) && StrictlySorted(SortedThemes(keys, search))
  {
    var p := (t: string) => Matches(t, search);
    var sorted := Sort(keys);
    SortSorted(keys);
    SubsequenceSorted(Filter(sorted, p), sorted);
    assert forall t :: t in sorted <==> t in keys by {
      forall t ensures t in sorted <==> t in keys {
        assert t in sorted <==> t in multiset(sorted);
        assert t in keys <==> t in multiset(keys);
      }
    }
    if Distinct(keys) {
      SortDistinct(keys);
      FilterDistinct(sorted, p);
      SortedDistinctStrict(Filter(sorted, p));
    }
  }

  /** Any order of the same keys gives the same theme list: the order in which
      `Object.keys` reports them does not matter. */
  lemma SortedThemesOrderFree(keys: seq<string>, other: seq<string>, search: string)
    requires multiset(keys) == multiset(other)
    ensures SortedThemes(keys, search) == SortedThemes(other, search)
  {
    SortSorted(keys);
    SortSorted(other);
    SortedUnique(Sort(keys), Sort(other));
  }

  /** With no search text the theme list is every key, sorted. */
  lemma SortedThemesEmptySearch(keys: seq<string>)
    ensures SortedThemes(keys, "") == Sort(keys)
  {
    forall t | t in Sort(keys) ensures Matches(t, "") {
      MatchesEmpty(t);
    }
    FilterAll(Sort(keys), (t: string) => Matches(t, ""));
  }

  // ----- Navigation state in the query string -----

  const SearchKey := "q"
  const ViewKey := "view"

  datatype View = Books | Topics

  function ViewName(v: View): string {
    match v
    case Books => "books"
    case Topics => "topics"
  }

  /** `searchParams.get('q') || ''`. */
  function SearchOf(params: map<string, string>): (r: string)
    ensures SearchKey !in params ==> r == ""
  {
    if SearchKey in params then params[SearchKey] else ""
  }

  /** `(searchParams.get('view') as 'books' | 'topics') || 'books'`. The cast
      checks nothing, so any non-empty value comes through unchanged. */
  function ViewOf(params: map<string, string>): (r: string)
    ensures r != ""
    ensures ViewKey !in params ==> r == "books"
  {
    if ViewKey in params && params[ViewKey] != "" then params[ViewKey] else "books"
  }

  /** The page shows the book grid when `view === 'books'` and the topics
      otherwise, whatever else the parameter holds. */
  function ShowsBooks(params: map<string, string>): (r: bool)
    ensures r <==> ViewKey !in params || params[ViewKey] == "" || params[ViewKey] == "books"
  {
    ViewOf(params) == "books"
  }

  /** The parameters `setSearch(val)` leaves behind: `q` set when `val` is
      non-empty, removed otherwise. */
  function WithSearch(params: map<string, string>, val: string): (r: map<string, string>)
    ensures SearchOf(r) == val
    ensures SearchKey in r <==> val != ""
    ensures forall k :: k != SearchKey ==> (k in r <==> k in params)
    ensures forall k :: k != SearchKey && k in r ==> r[k] == params[k]
    ensures ViewOf(r) == ViewOf(params)
  {
    if val != "" then params[SearchKey := val] else params - {SearchKey}
  }

  /** The parameters `setView(val)` leaves behind: `view` always set. */
  function WithView(params: map<string, string>, v: View): (r: map<string, string>)
    ensures ViewOf(r) == ViewName(v)
    ensures ViewKey in r
    ensures forall k :: k != ViewKey ==> (k in r <==> k in params)
    ensures forall k :: k != ViewKey && k in r ==> r[k] == params[k]
    ensures SearchOf(r) == SearchOf(params)
  {
    params[ViewKey := ViewName(v)]
  }

  /** Setting the search and then the view, from any state, reads back as the
      pair that was set. */
  lemma NavigationRoundTrip(params: map<string, string>, search: string, v: View)
    ensures SearchOf(WithView(WithSearch(params, search), v)) == search
    ensures ViewOf(WithView(WithSearch(params, search), v)) == ViewName(v)
    ensures ShowsBooks(WithView(WithSearch(params, search), v)) <==> v == Books
  {
  }

  /** The query string of a theme chip's link, `/?q=<theme>&view=topics`. */
  function ThemeLinkParams(theme: string): map<string, string> {
    map[SearchKey := theme, ViewKey := "topics"]
  }

  /** Following a theme chip opens the topics view searching for that theme. */
  lemma ThemeLinkOpensTopics(theme: string)
    ensures SearchOf(ThemeLinkParams(theme)) == theme
    ensures ViewOf(ThemeLinkParams(theme)) == "topics" && !ShowsBooks(ThemeLinkParams(theme))
  {
  }

  /** A `URLSearchParams` copy, with one value per key. */
  class SearchParams {
    var entries: map<string, string>

    /** `new URLSearchParams(init)`. */
    constructor (init: map<string, string>)
      ensures entries == init
    {
      entries := init;
    }

    /** `params.set(key, value)`. */
    method Set(key: string, value: string)
      modifies this
      ensures entries == old(entries)[key := value]
    {
      entries := entries[key := value];
    }

    /** `params.delete(key)`. */
    method Delete(key: string)
      modifies this
      ensures entries == old(entries) - {key}
    {
      entries := entries - {key};
    }
  }

  /** The home page and the router's query string it reads and replaces. */
  class HomePage {
    var searchParams: map<string, string>

    constructor (params: map<string, string>)
      ensures searchParams == params
    {
      searchParams := params;
    }

    function Search(): string
      reads this
    {
      SearchOf(searchParams)
    }

    function View(): string
      reads this
    {
      ViewOf(searchParams)
    }

    /** `setSearch(val)`: copy the parameters, set or delete `q`, replace. */
    method SetSearch(val: string)
      modifies this
      ensures searchParams == WithSearch(old(searchParams), val)
      ensures Search() == val && View() == old(View())
    {
      var params := new SearchParams(searchParams);
      if val != "" {
        params.Set(SearchKey, val);
      } else {
        params.Delete(SearchKey);
      }
      searchParams := params.entries;
    }

    /** `setView(val)`: copy the parameters, set `view`, replace. */
    method SetView(v: View)
      modifies this
      ensures searchParams == WithView(old(searchParams), v)
      ensures View() == ViewName(v) && Search() == old(Search())
    {
      var params := new SearchParams(searchParams);
      params.Set(ViewKey, ViewName(v));
      searchParams := params.entries;
    }

    /** What the page computes for the current query string: the book grid,
        the theme index and the theme list. */
    method Derive(books: seq<Book>) returns (shown: seq<Book>, index: ThemeIndex, themes: seq<string>)
      ensures forall b :: b in shown <==> b in books && BookMatches(b, Search())
      ensures IsSubsequence(shown, books)
      ensures forall b :: multiset(shown)[b] == if BookMatches(b, Search()) then multiset(books)[b] else 0
      ensures forall t :: t in index <==> ThemeEntries(books, t) != []
      ensures forall t :: t in index ==> index[t] == ThemeEntries(books, t)
      ensures StrictlySorted(themes)
      ensures forall t :: t in themes <==> t in index && Matches(t, Search())
    {
      shown := FilteredBooks(books, Search());
      var keys;
      keys, index := BuildThemesMap(books);
      themes := SortedThemes(keys, Search());
      SortedThemesSpec(keys, Search());
    }
  }
}
