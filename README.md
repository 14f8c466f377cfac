# Manifold index: a Dafny model of the browser's derived views

Manifold is a single-page browser over a fixed content tree: books, each with
stories, each story with optional themes and a list of study resources. All of
its logic lives in `src/App.tsx`. This project models that logic:

- the book grid's search filter (`filteredBooks`);
- the topics view's index from theme to stories (`themesMap`);
- the sorted, search-filtered theme list (`sortedThemes`);
- the search text and view mode kept in the query string (`q`, `view`), with
  `setSearch` and `setView`;
- the book and story lookups of the two detail pages;
- the category badge's style table with its fallback;
- the resource count on a book card.

The book list is a parameter: the contents of `content.json` are not part of
this model. Each `useMemo` derivation is a plain function of its inputs.

Layout, one module per file:

- `wrappers.dfy` (`Wrappers`): `Option`, standing for `undefined`.
- `text.dfy` (`Text`): `toLowerCase`, `includes`, and the string order that
  `Array.prototype.sort()` uses, with its order laws.
- `seqs.dfy` (`Seqs`): `filter`, `findIndex` and `find` on lists.
- `sorting.dfy` (`Sorting`): sorting strings, proved ascending and a
  permutation, and unique: any two sorts of the same strings agree.
- `content.dfy` (`Content`): the Resource, Story and Book records, the badge
  table and the resource count. The JSON field `type` of a resource is called
  `kind`, because `type` is a Dafny keyword.
- `pages.dfy` (`Pages`): the lookups of BookDetailPage and StoryDetailPage.
- `themes.dfy` (`Themes`): `themesMap`. The three nested `forEach` loops are
  methods with loops: one method per loop, as each closure is its own
  function. The in-place dictionary is a `map` the methods reassign. Each
  method is proved to compute a fold over its own loop's list
  (`PushThemes`, `PushStories`, `IndexOfBooks`). Lemmas show that the
  result matches `ThemeEntries`, a separate book-then-story definition of
  what each theme's list must hold.
- `home.dfy` (`Home`): the search filter, the theme list, and the query-string
  state. `SearchParams` is the `URLSearchParams` copy that `setSearch` and
  `setView` change in place. `HomePage` holds the router's current
  parameters.

Facts about the code that shape the model:

- `filteredBooks` keeps list order and does not sort. `BibleBook` has no
  `number` field.
- Every story that lists themes is indexed, with or without resources.
- `Resource` has no `collection` field, and `BibleBook` has no `resources`
  field of its own.

## Model

| member | source | states |
|---|---|---|
| Text.IncludesIff | src/App.tsx:168-169 | `includes` holds exactly when the needle occurs as a contiguous piece at some position |
| Text.IncludesLower | src/App.tsx:168-169 | under per-character lower-casing, a case-sensitive occurrence is also found after lower-casing both sides |
| Text.BeforeIff | src/App.tsx:187 | the sort's string order is lexicographic: a proper prefix, or a smaller character at the first difference |
| Text.BeforeTotal | src/App.tsx:187 | any two different strings are ordered one way or the other |
| Text.BeforeTransitive | src/App.tsx:187 | the string order is transitive |
| Text.BeforeIrreflexive | src/App.tsx:187 | no string comes before itself |
| Seqs.Filter | src/App.tsx:167-170 | `filter` keeps an order-preserving subsequence holding exactly the passing elements, each as often as in the input |
| Seqs.FindIndex | src/App.tsx:262 | the first position whose element passes, or none when no element passes |
| Seqs.FindFirst | src/App.tsx:262 | `find` is undefined exactly when no element passes, else it is the element at the first passing position |
| Sorting.SortSorted | src/App.tsx:187 | the sorted keys are ascending and a permutation of the input |
| Sorting.SortedUnique | src/App.tsx:187 | two ascending lists with the same elements are equal, so every correct sort gives the same list |
| Sorting.SortDistinct | src/App.tsx:187 | sorting keys without duplicates leaves none |
| Content.BadgeStyle | src/App.tsx:42-47 | a known category gets its table entry, and the gray fallback is used exactly for categories outside the table |
| Content.DotStyle | src/App.tsx:49-54 | the same for the badge's dot |
| Content.BadgeStylesDistinguish | src/App.tsx:41-58 | the four known categories get four different badges and dots, and badge and dot fall back together |
| Content.ResourceCountTotal | src/App.tsx:140 | the card's count is the number of resources over all the book's stories |
| Content.ResourceCountZero | src/App.tsx:140 | the count is 0 exactly when no story of the book has a resource |
| Content.ResourceCountAppend | src/App.tsx:140 | counts over two runs of stories add up |
| Pages.FindBook | src/App.tsx:262 | the lookup misses exactly when no book has the id, and otherwise returns the first book with that id |
| Pages.FindStorySpec | src/App.tsx:321-324 | the story lookup misses exactly when the book is missing or its first book has no story with the id, else it returns that book's first story with the id |
| Themes.RecordStory | src/App.tsx:177-180 | the innermost loop leaves the dictionary and its key order as pushing the story's entry once per listed theme, in order, creating a theme's list and appending its key on first sight; a story without `themes` changes nothing |
| Themes.RecordBook | src/App.tsx:176-181 | the story loop leaves the dictionary and its key order as recording each story of the book in turn |
| Themes.BuildThemesMap | src/App.tsx:173-184 | a theme is a key exactly when its reference entry list is non-empty, its value is that list, and the keys are listed once each |
| Themes.BooksBuilt | src/App.tsx:173-184 | after the three loops, a theme is a key exactly when the visits record entries for it, its list is those entries, and the key list holds each key once |
| Themes.RecordedVisits | src/App.tsx:175-181 | the loops' visiting order pushes, for every theme, exactly the reference entries in book-then-story order |
| Themes.ThemeListed | src/App.tsx:177-179 | a theme has entries, so it is a key with a non-empty list, exactly when some story of some book lists it |
| Themes.ThemeEntriesCarry | src/App.tsx:179 | every entry holds the id and name of a book of the list and one of its stories that lists the theme |
| Themes.ThemeEntriesAppend | src/App.tsx:175 | the entries of earlier books come before those of later books |
| Themes.UnthemedStoryIgnored | src/App.tsx:177 | a story whose `themes` is absent contributes nothing |
| Themes.RecordAsWritten | src/App.tsx:174-179 | the loop body as written, on a plain object, never gives an inherited member's name a list |
| Themes.RecordAsWrittenThrows | src/App.tsx:174-179 | as written, building the index throws exactly when some visited theme is named like an inherited member of `Object.prototype` |
| Themes.RecordAsWrittenAgrees | src/App.tsx:174-179 | when no visited theme is an inherited name, the code as written does not throw, and each theme is a key exactly when the loops record entries for it, with those entries as its list |
| Themes.RecordAsWrittenMatchesIndex | src/App.tsx:173-184 | when no story lists an inherited name, the code as written builds the corrected index: the same keys, each with its reference entry list |
| Themes.ConstructorThemeThrows | src/App.tsx:178-179 | one story with the theme "constructor": as written the page throws, while the corrected index holds that story's entry |
| Home.FilteredBooks | src/App.tsx:166-171 | the grid is an order-preserving subsequence of the books, holding a book exactly when its lower-cased name or category contains the lower-cased search, with its multiplicity |
| Home.MatchesEmpty | src/App.tsx:150 | every text matches the empty search |
| Home.FilteredBooksEmptySearch | src/App.tsx:166-171 | with an empty search the grid is the whole book list |
| Home.FilteredBooksKeepsExactName | src/App.tsx:168 | under per-character lower-casing, a book whose name contains the search exactly is shown |
| Home.SortedThemesSpec | src/App.tsx:186-190 | the theme list is ascending, holds exactly the keys whose lower-case form contains the lower-cased search, and is strictly ascending with no duplicates when the keys are distinct |
| Home.SortedThemesOrderFree | src/App.tsx:187 | the order in which the keys arrive does not change the theme list |
| Home.SortedThemesEmptySearch | src/App.tsx:186-190 | with an empty search the theme list is all keys, sorted |
| Home.SearchOf | src/App.tsx:150 | an absent `q` reads back as the empty search |
| Home.ViewOf | src/App.tsx:151 | an absent `view` reads back as `books`, and the view is never empty |
| Home.ShowsBooks | src/App.tsx:199 | the grid is shown exactly when `view` is absent, empty or `books`; any other value shows the topics |
| Home.WithSearch | src/App.tsx:153-158 | after `setSearch(val)` the search reads back as `val`, `q` is present exactly when `val` is non-empty, and every other parameter and the view are unchanged |
| Home.WithView | src/App.tsx:160-164 | after `setView(v)` the view reads back as `v`, `view` is present, and every other parameter and the search are unchanged |
| Home.NavigationRoundTrip | src/App.tsx:150-164 | setting a search and then a view, from any state, decodes to exactly that pair |
| Home.ThemeLinkOpensTopics | src/App.tsx:353 | a theme chip's link opens the topics view searching for that theme |
| Home.SearchParams.Set | src/App.tsx:155 | `set` replaces one key's value and nothing else |
| Home.SearchParams.Delete | src/App.tsx:156 | `delete` removes one key and nothing else |
| Home.HomePage.SetSearch | src/App.tsx:153-158 | the page's parameters become `WithSearch` of the old ones: the search is `val` and the view is unchanged |
| Home.HomePage.SetView | src/App.tsx:160-164 | the page's parameters become `WithView` of the old ones: the view is `v` and the search is unchanged |
| Home.HomePage.Derive | src/App.tsx:166-190 | for the current search: the grid is an order-preserving subsequence holding exactly the matching books, each as often as in the list; a theme is an index key exactly when its reference entry list is non-empty, and that list is its value; and the theme list is strictly ascending and holds exactly the matching keys |

## Findings

| source | as written | input that shows it | evidently intended | confidence | as-written member | corrected member |
|---|---|---|---|---|---|---|
| src/App.tsx:174-179 | `themesMap` is a plain `{}`, and `!map[theme]` tests truthiness, not own keys. A theme named like a member of `Object.prototype` (`constructor`, `toString`, `__proto__`, ...) finds the inherited value, which is truthy, so no array is created. The next `map[theme].push(...)` then throws a `TypeError`, and the home page fails to render. | one book with one story whose `themes` is `["constructor"]` | every listed theme gets its own list of entries | not executed | Themes.RecordAsWrittenThrows | Themes.BuildThemesMap |

`Themes.RecordAsWritten` models the loop body as written. `Themes.RecordAsWrittenThrows`
states when it throws. `Themes.BuildThemesMap` tests for an own key (`theme in index`),
and the rest of the model uses it.

## Left out

- Rendering: JSX layout, `Header`, `Footer`, `SearchBar`, the cards, the
  `motion` and `AnimatePresence` transitions and `react-router` routing are
  presentation only.
- `useMemo` caching is an optimisation; each derivation is a function of its inputs.
- `cn`, `clsx` and `twMerge` wrap libraries that are not part of this model.
  The badge model stops at the table lookup.
- The contents of `content.json`: the book list is a parameter.
- The vendored `motion-dom`, `framer-motion` and `motion` files are
  animation tables, browser feature detection and re-exports, with no logic
  the views depend on.
- `URLSearchParams` is modelled as one value per key. Repeated keys, parameter
  order and percent-encoding (`encodeURIComponent` at src/App.tsx:353) are left
  out. So is the history entry that `setSearchParams(..., { replace: true })`
  replaces.
- Text.LowerChar: maps only the ASCII letters, one character at a time.
  JavaScript's `toLowerCase` applies full Unicode case mapping. That mapping
  can change a string's length, and it can depend on the neighbouring
  characters (a final capital sigma becomes "ς", not "σ").
- Text.IncludesLower: holds only for per-character lower-casing. For
  example, `"ΑΣ".includes("Σ")` is true, but `"ας".includes("σ")` is false.
- Home.FilteredBooksKeepsExactName: holds only for per-character lower-casing.
  With the name "ΑΣ" and the search "Σ", the code hides the book unless its
  category contains "σ".
- Text.Before: compares Dafny characters (Unicode scalar values), while
  JavaScript compares UTF-16 code units. The two orders differ only between
  characters above U+FFFF and characters from U+E000 to U+FFFF.
- Sorting.Sort: an insertion sort stands for the engine's sort algorithm.
  `Sorting.SortedUnique` shows that every correct sort of the same strings
  gives the same list.
- Themes.BuildThemesMap: its `keys` follow first-insertion order. `Object.keys`
  lists integer-like keys first, in numeric order. `Home.SortedThemesOrderFree`
  shows that the order does not change the theme list.
- Content.BadgeStyle: a category named like an `Object.prototype` member
  (for example `toString`) makes `styles[category]` (src/App.tsx:57) a
  function value. That value is truthy, so the fallback is not used. `clsx`
  drops a function argument, so the badge gets neither a table entry nor the
  fallback. The model treats the category as missing and uses the fallback.
- Content.DotStyle: the same holds for `dotStyles[category] || 'bg-gray-400'`
  (src/App.tsx:58). The model uses the fallback, while the source's dot gets
  no colour class.
- Entries in the theme index hold story values, not references to the shared
  story objects. The content tree is never mutated, so nothing observable
  differs.
- `book.stories.length` on the card (src/App.tsx:138) is a plain length and has
  no member of its own.
