/** The topics view's index (`themesMap` in HomePage): a dictionary from each
    theme a story lists to the `{bookId, bookName, story}` entries carrying it,
    filled in place by three nested loops over books, stories and themes. */
module Themes {
  import opened Wrappers
  import opened Seqs
  import opened Content

  /** One item of `themesMap[theme]`. */
  datatype ThemeEntry = ThemeEntry(bookId: string, bookName: string, story: Story)

  type ThemeIndex = map<string, seq<ThemeEntry>>

  function EntryFor(book: Book, story: Story): ThemeEntry {
    ThemeEntry(book.id, book.name, story)
  }

  // ----- What the index must hold for a theme -----

  /** Within one book: story by story, one entry per time the story lists `theme`. */
  function StoryEntries(book: Book, stories: seq<Story>, theme: string): seq<ThemeEntry>
    decreases |stories|
  {
    if stories == [] then []
    else Repeat(EntryFor(book, stories[0]), multiset(ThemesOf(stories[0]))[theme]) +
         StoryEntries(book, stories[1..], theme)
  }

  /** Over all books, book by book. */
  function ThemeEntries(books: seq<Book>, theme: string): seq<ThemeEntry>
    decreases |books|
  {
    if books == [] then []
    else StoryEntries(books[0], books[0].stories, theme) + ThemeEntries(books[1..], theme)
  }

  // ----- The order in which the nested loops visit (theme, entry) pairs -----

  type Visit = (string, ThemeEntry)

  function ThemeVisits(book: Book, story: Story, themes: seq<string>): seq<Visit>
    decreases |themes|
  {
    if themes == [] then []
    else ThemeVisits(book, story, themes[..|themes| - 1]) + [(themes[|themes| - 1], EntryFor(book, story))]
  }

  function StoryVisits(book: Book, stories: seq<Story>): seq<Visit>
    decreases |stories|
  {
    if stories == [] then []
    else
      var last := stories[|stories| - 1];
      StoryVisits(book, stories[..|stories| - 1]) + ThemeVisits(book, last, ThemesOf(last))
  }

  function Visits(books: seq<Book>): seq<Visit>
    decreases |books|
  {
    if books == [] then []
    else
      var last := books[|books| - 1];
      Visits(books[..|books| - 1]) + StoryVisits(last, last.stories)
  }

  /** The entries a run of visits pushes for `theme`, in order. */
  function Recorded(visits: seq<Visit>, theme: string): seq<ThemeEntry>
    decreases |visits|
  {
    if visits == [] then []
    else
      var last := visits[|visits| - 1];
      Recorded(visits[..|visits| - 1], theme) + (if last.0 == theme then [last.1] else [])
  }

  /** The theme's list so far, empty before its first entry. */
  function ListOf(index: ThemeIndex, theme: string): seq<ThemeEntry> {
    if theme in index then index[theme] else []
  }

  /** `index` and its key order `keys` hold, for every theme, what `visits` records. */
  ghost predicate Built(keys: seq<string>, index: ThemeIndex, visits: seq<Visit>) {
    && (forall t :: t in index <==> Recorded(visits, t) != [])
    && (forall t :: t in index ==> index[t] == Recorded(visits, t))
    && (forall t :: t in keys <==> t in index)
    && Distinct(keys)
  }

  lemma RecordedSnoc(visits: seq<Visit>, v: Visit, theme: string)
    ensures Recorded(visits + [v], theme) == Recorded(visits, theme) + (if v.0 == theme then [v.1] else [])
  {
    assert (visits + [v])[..|visits|] == visits;
  }

  /** One push keeps `Built`. */
  lemma RecordStep(keys: seq<string>, index: ThemeIndex, visits: seq<Visit>, theme: string, e: ThemeEntry)
    requires Built(keys, index, visits)
    ensures Built(if theme in index then keys else keys + [theme],
                  index[theme := ListOf(index, theme) + [e]],
                  visits + [(theme, e)])
  {
    StepKeys(keys, index, theme, ListOf(index, theme) + [e], if theme in index then keys else keys + [theme]);
    StepIndex(index, visits, theme, e);
  }

  /** The key list follows the dictionary's keys through one push. */
  lemma StepKeys(keys: seq<string>, index: ThemeIndex, theme: string, list: seq<ThemeEntry>, keys': seq<string>)
    requires forall t :: t in keys <==> t in index
    requires Distinct(keys)
    requires keys' == if theme in index then keys else keys + [theme]
    ensures forall t :: t in keys' <==> t in index[theme := list]
    ensures Distinct(keys')
  {
    if theme !in index {
      DistinctSnoc(keys, theme);
    }
  }

  /** The dictionary follows the recorded entries through one push. */
  lemma StepIndex(index: ThemeIndex, visits: seq<Visit>, theme: string, e: ThemeEntry)
    requires forall t :: t in index <==> Recorded(visits, t) != []
    requires forall t :: t in index ==> index[t] == Recorded(visits, t)
    ensures forall t :: t in index[theme := ListOf(index, theme) + [e]] <==> Recorded(visits + [(theme, e)], t) != []
    ensures forall t :: t in index[theme := ListOf(index, theme) + [e]] ==>
              index[theme := ListOf(index, theme) + [e]][t] == Recorded(visits + [(theme, e)], t)
  {
    forall t ensures Recorded(visits + [(theme, e)], t) == Recorded(visits, t) + (if theme == t then [e] else []) {
      RecordedSnoc(visits, (theme, e), t);
    }
  }

  // ----- The dictionary after each loop, as a fold over that loop's list -----

  /** Pushing `e` once for each of `themes`, in order. */
  ghost function PushThemes(index: ThemeIndex, themes: seq<string>, e: ThemeEntry): ThemeIndex
    decreases |themes|
  {
    if themes == [] then index
    else
      var m := PushThemes(index, themes[..|themes| - 1], e);
      var t := themes[|themes| - 1];
      m[t := ListOf(m, t) + [e]]
  }

  /** The keys after those pushes: a theme is appended on first sight. */
  ghost function PushKeys(keys: seq<string>, index: ThemeIndex, themes: seq<string>, e: ThemeEntry): seq<string>
    decreases |themes|
  {
    if themes == [] then keys
    else
      var init := themes[..|themes| - 1];
      var t := themes[|themes| - 1];
      var ks := PushKeys(keys, index, init, e);
      if t in PushThemes(index, init, e) then ks else ks + [t]
  }

  /** Recording each of a book's stories, in order. */
  ghost function PushStories(index: ThemeIndex, book: Book, stories: seq<Story>): ThemeIndex
    decreases |stories|
  {
    if stories == [] then index
    else
      var last := stories[|stories| - 1];
      PushThemes(PushStories(index, book, stories[..|stories| - 1]), ThemesOf(last), EntryFor(book, last))
  }

  ghost function PushStoryKeys(keys: seq<string>, index: ThemeIndex, book: Book, stories: seq<Story>): seq<string>
    decreases |stories|
  {
    if stories == [] then keys
    else
      var init := stories[..|stories| - 1];
      var last := stories[|stories| - 1];
      PushKeys(PushStoryKeys(keys, index, book, init), PushStories(index, book, init), ThemesOf(last), EntryFor(book, last))
  }

  /** Recording each book, in order, from the empty dictionary. */
  ghost function IndexOfBooks(books: seq<Book>): ThemeIndex
    decreases |books|
  {
    if books == [] then map[]
    else
      var last := books[|books| - 1];
      PushStories(IndexOfBooks(books[..|books| - 1]), last, last.stories)
  }

  ghost function KeysOfBooks(books: seq<Book>): seq<string>
    decreases |books|
  {
    if books == [] then []
    else
      var init := books[..|books| - 1];
      var last := books[|books| - 1];
      PushStoryKeys(KeysOfBooks(init), IndexOfBooks(init), last, last.stories)
  }

  /** `story.themes?.forEach(theme => ...)`: push one entry per listed theme,
      creating the theme's list on first sight. */
  method RecordStory(book: Book, story: Story, keys: seq<string>, index: ThemeIndex)
    returns (keys': seq<string>, index': ThemeIndex)
    ensures index' == PushThemes(index, ThemesOf(story), EntryFor(book, story))
    ensures keys' == PushKeys(keys, index, ThemesOf(story), EntryFor(book, story))
  {
    keys', index' := keys, index;
    var themes := ThemesOf(story);
    var entry := EntryFor(book, story);
    for k := 0 to |themes|
      invariant index' == PushThemes(index, themes[..k], entry)
      invariant keys' == PushKeys(keys, index, themes[..k], entry)
    {
      var theme := themes[k];
      assert themes[..k + 1][..k] == themes[..k];
      ghost var before := index';
      if theme !in index' {
        index' := index'[theme := []];
        keys' := keys' + [theme];
      }
      index' := index'[theme := index'[theme] + [entry]];
      assert index' == before[theme := ListOf(before, theme) + [entry]];
    }
    assert themes[..|themes|] == themes;
  }

  /** `book.stories.forEach(story => ...)`. */
  method RecordBook(book: Book, keys: seq<string>, index: ThemeIndex)
    returns (keys': seq<string>, index': ThemeIndex)
    ensures index' == PushStories(index, book, book.stories)
    ensures keys' == PushStoryKeys(keys, index, book, book.stories)
  {
    keys', index' := keys, index;
    for j := 0 to |book.stories|
      invariant index' == PushStories(index, book, book.stories[..j])
      invariant keys' == PushStoryKeys(keys, index, book, book.stories[..j])
    {
      assert book.stories[..j + 1][..j] == book.stories[..j];
      keys', index' := RecordStory(book, book.stories[j], keys', index');
    }
    assert book.stories[..|book.stories|] == book.stories;
  }

  /** `themesMap`: `books.forEach(book => ...)` over an empty dictionary.
      Returns the index and its keys in first-insertion order. */
  method BuildThemesMap(books: seq<Book>) returns (keys: seq<string>, index: ThemeIndex)
    ensures forall t :: t in index <==> ThemeEntries(books, t) != []
    ensures forall t :: t in index ==> index[t] == ThemeEntries(books, t)
    ensures forall t :: t in keys <==> t in index
    ensures Distinct(keys)
  {
    keys, index := [], map[];
    for i := 0 to |books|
      invariant index == IndexOfBooks(books[..i])
      invariant keys == KeysOfBooks(books[..i])
    {
      assert books[..i + 1][..i] == books[..i];
      keys, index := RecordBook(books[i], keys, index);
    }
    assert books[..|books|] == books;
    BooksBuilt(books);
    BuiltFinal(keys, index, books);
  }

  // ----- Each loop keeps `Built` -----

  lemma {:induction false} ThemesBuilt(keys: seq<string>, index: ThemeIndex, visits: seq<Visit>,
                                       book: Book, story: Story, themes: seq<string>)
    requires Built(keys, index, visits)
    ensures Built(PushKeys(keys, index, themes, EntryFor(book, story)),
                  PushThemes(index, themes, EntryFor(book, story)),
                  visits + ThemeVisits(book, story, themes))
    decreases |themes|
  {
    if themes == [] {
      assert visits + [] == visits;
    } else {
      var init := themes[..|themes| - 1];
      var e := EntryFor(book, story);
      var t := themes[|themes| - 1];
      ThemesBuilt(keys, index, visits, book, story, init);
      RecordStep(PushKeys(keys, index, init, e), PushThemes(index, init, e), visits + ThemeVisits(book, story, init), t, e);
      assert visits + ThemeVisits(book, story, themes) == (visits + ThemeVisits(book, story, init)) + [(t, e)];
    }
  }

  lemma {:induction false} StoriesBuilt(keys: seq<string>, index: ThemeIndex, visits: seq<Visit>,
                                        book: Book, stories: seq<Story>)
    requires Built(keys, index, visits)
    ensures Built(PushStoryKeys(keys, index, book, stories),
                  PushStories(index, book, stories),
                  visits + StoryVisits(book, stories))
    decreases |stories|
  {
    if stories == [] {
      assert visits + [] == visits;
    } else {
      var init := stories[..|stories| - 1];
      var last := stories[|stories| - 1];
      StoriesBuilt(keys, index, visits, book, init);
      ThemesBuilt(PushStoryKeys(keys, index, book, init), PushStories(index, book, init),
                  visits + StoryVisits(book, init), book, last, ThemesOf(last));
      assert visits + StoryVisits(book, stories) ==
             (visits + StoryVisits(book, init)) + ThemeVisits(book, last, ThemesOf(last));
    }
  }

  lemma {:induction false} BooksBuilt(books: seq<Book>)
    ensures Built(KeysOfBooks(books), IndexOfBooks(books), Visits(books))
    decreases |books|
  {
    if books != [] {
      var init := books[..|books| - 1];
      var last := books[|books| - 1];
      BooksBuilt(init);
      StoriesBuilt(KeysOfBooks(init), IndexOfBooks(init), Visits(init), last, last.stories);
    }
  }

  lemma BuiltFinal(keys: seq<string>, index: ThemeIndex, books: seq<Book>)
    requires Built(keys, index, Visits(books))
    ensures forall t :: t in index <==> ThemeEntries(books, t) != []
    ensures forall t :: t in index ==> index[t] == ThemeEntries(books, t)
  {
    forall t ensures Recorded(Visits(books), t) == ThemeEntries(books, t) {
      RecordedVisits(books, t);
    }
  }

  // ----- The visiting order records exactly the reference entries -----

  lemma {:induction false} RecordedAppend(a: seq<Visit>, b: seq<Visit>, theme: string)
    ensures Recorded(a + b, theme) == Recorded(a, theme) + Recorded(b, theme)
    decreases |b|
  {
    if b == [] {
      assert a + b == a;
    } else {
      var init := b[..|b| - 1];
      RecordedAppend(a, init, theme);
      assert a + b == (a + init) + [b[|b| - 1]];
      RecordedSnoc(a + init, b[|b| - 1], theme);
    }
  }

  lemma {:induction false} RecordedThemeVisits(book: Book, story: Story, themes: seq<string>, theme: string)
    ensures Recorded(ThemeVisits(book, story, themes), theme) ==
            Repeat(EntryFor(book, story), multiset(themes)[theme])
    decreases |themes|
  {
    if themes != [] {
      var init := themes[..|themes| - 1];
      var last := themes[|themes| - 1];
      RecordedThemeVisits(book, story, init, theme);
      RecordedSnoc(ThemeVisits(book, story, init), (last, EntryFor(book, story)), theme);
      assert themes == init + [last];
      assert multiset(themes) == multiset(init) + multiset{last};
      RepeatAdd(EntryFor(book, story), multiset(init)[theme], if last == theme then 1 else 0);
    }
  }

  lemma {:induction false} StoryEntriesSnoc(book: Book, stories: seq<Story>, s: Story, theme: string)
    ensures StoryEntries(book, stories + [s], theme) ==
            StoryEntries(book, stories, theme) + Repeat(EntryFor(book, s), multiset(ThemesOf(s))[theme])
    decreases |stories|
  {
    if stories == [] {
      assert stories + [s] == [s];
    } else {
      assert (stories + [s])[1..] == stories[1..] + [s];
      StoryEntriesSnoc(book, stories[1..], s, theme);
    }
  }

  lemma {:induction false} RecordedStoryVisits(book: Book, stories: seq<Story>, theme: string)
    ensures Recorded(StoryVisits(book, stories), theme) == StoryEntries(book, stories, theme)
    decreases |stories|
  {
    if stories != [] {
      var init := stories[..|stories| - 1];
      var last := stories[|stories| - 1];
      var sv := StoryVisits(book, init);
      var tv := ThemeVisits(book, last, ThemesOf(last));
      calc {
        Recorded(StoryVisits(book, stories), theme);
        Recorded(sv + tv, theme);
        { RecordedAppend(sv, tv, theme); }
        Recorded(sv, theme) + Recorded(tv, theme);
        { RecordedStoryVisits(book, init, theme); RecordedThemeVisits(book, last, ThemesOf(last), theme); }
        StoryEntries(book, init, theme) + Repeat(EntryFor(book, last), multiset(ThemesOf(last))[theme]);
        { StoryEntriesSnoc(book, init, last, theme); }
        StoryEntries(book, init + [last], theme);
        { assert init + [last] == stories; }
        StoryEntries(book, stories, theme);
      }
    }
  }

  lemma {:induction false} ThemeEntriesAppend(a: seq<Book>, b: seq<Book>, theme: string)
    ensures ThemeEntries(a + b, theme) == ThemeEntries(a, theme) + ThemeEntries(b, theme)
    decreases |a|
  {
    if a == [] {
      assert a + b == b;
    } else {
      assert (a + b)[0] == a[0];
      assert (a + b)[1..] == a[1..] + b;
      ThemeEntriesAppend(a[1..], b, theme);
    }
  }

  lemma ThemeEntriesSnoc(books: seq<Book>, b: Book, theme: string)
    ensures ThemeEntries(books + [b], theme) == ThemeEntries(books, theme) + StoryEntries(b, b.stories, theme)
  {
    ThemeEntriesAppend(books, [b], theme);
    assert [b][1..] == [];
  }

  /** The loops' visiting order pushes, for every theme, exactly the reference
      entries in the reference order. */
  lemma {:induction false} RecordedVisits(books: seq<Book>, theme: string)
    ensures Recorded(Visits(books), theme) == ThemeEntries(books, theme)
    decreases |books|
  {
    if books != [] {
      var init := books[..|books| - 1];
      var last := books[|books| - 1];
      assert books == init + [last];
      calc {
        Recorded(Visits(books), theme);
        Recorded(Visits(init) + StoryVisits(last, last.stories), theme);
        { RecordedAppend(Visits(init), StoryVisits(last, last.stories), theme); }
        Recorded(Visits(init), theme) + Recorded(StoryVisits(last, last.stories), theme);
        { RecordedVisits(init, theme); RecordedStoryVisits(last, last.stories, theme); }
        ThemeEntries(init, theme) + StoryEntries(last, last.stories, theme);
        { ThemeEntriesSnoc(init, last, theme); }
        ThemeEntries(books, theme);
      }
    }
  }

  // ----- Properties of the index -----

  lemma {:induction false} StoryEntriesPresent(book: Book, stories: seq<Story>, theme: string)
    ensures StoryEntries(book, stories, theme) != [] <==>
      exists j :: 0 <= j < |stories| && theme in ThemesOf(stories[j])
    decreases |stories|
  {
    if stories != [] {
      StoryEntriesPresent(book, stories[1..], theme);
      if exists j :: 0 <= j < |stories| && theme in ThemesOf(stories[j]) {
        var j :| 0 <= j < |stories| && theme in ThemesOf(stories[j]);
        if j > 0 {
          assert stories[1..][j - 1] == stories[j];
        } else {
          assert theme in multiset(ThemesOf(stories[0]));
        }
      }
      if exists j :: 0 <= j < |stories[1..]| && theme in ThemesOf(stories[1..][j]) {
        var j :| 0 <= j < |stories[1..]| && theme in ThemesOf(stories[1..][j]);
        assert stories[j + 1] == stories[1..][j];
      }
    }
  }

  /** A theme is a key of the index exactly when some story of some book lists
      it; a story whose `themes` is absent lists none. */
  lemma {:induction false} ThemeListed(books: seq<Book>, theme: string)
    ensures ThemeEntries(books, theme) != [] <==>
      exists i, j :: 0 <= i < |books| && 0 <= j < |books[i].stories| && theme in ThemesOf(books[i].stories[j])
    decreases |books|
  {
    if books != [] {
      ThemeListed(books[1..], theme);
      StoryEntriesPresent(books[0], books[0].stories, theme);
      if exists i, j :: 0 <= i < |books| && 0 <= j < |books[i].stories| && theme in ThemesOf(books[i].stories[j]) {
        var i, j :| 0 <= i < |books| && 0 <= j < |books[i].stories| && theme in ThemesOf(books[i].stories[j]);
        if i > 0 {
          assert books[1..][i - 1] == books[i];
        }
      }
      if exists i, j :: 0 <= i < |books[1..]| && 0 <= j < |books[1..][i].stories| && theme in ThemesOf(books[1..][i].stories[j]) {
        var i, j :| 0 <= i < |books[1..]| && 0 <= j < |books[1..][i].stories| && theme in ThemesOf(books[1..][i].stories[j]);
        assert books[i + 1] == books[1..][i];
      }
    }
  }

  lemma {:induction false} StoryEntriesCarry(book: Book, stories: seq<Story>, theme: string)
    ensures forall e :: e in StoryEntries(book, stories, theme) ==>
      exists j :: 0 <= j < |stories| && e == EntryFor(book, stories[j]) && theme in ThemesOf(stories[j])
    decreases |stories|
  {
    if stories != [] {
      StoryEntriesCarry(book, stories[1..], theme);
      var head := Repeat(EntryFor(book, stories[0]), multiset(ThemesOf(stories[0]))[theme]);
      forall e | e in StoryEntries(book, stories, theme)
        ensures exists j :: 0 <= j < |stories| && e == EntryFor(book, stories[j]) && theme in ThemesOf(stories[j])
      {
        if e in head {
          assert theme in multiset(ThemesOf(stories[0]));
          assert e == EntryFor(book, stories[0]);
        } else {
          assert e in StoryEntries(book, stories[1..], theme);
          var j :| 0 <= j < |stories[1..]| && e == EntryFor(book, stories[1..][j]) && theme in ThemesOf(stories[1..][j]);
          assert stories[j + 1] == stories[1..][j];
        }
      }
    }
  }

  /** `e` names a book of the list, by its id and name, and one of that book's
      stories that lists `theme`. */
  ghost predicate CarriedBy(books: seq<Book>, theme: string, e: ThemeEntry) {
    exists i, j :: 0 <= i < |books| && 0 <= j < |books[i].stories| &&
      e == EntryFor(books[i], books[i].stories[j]) && theme in ThemesOf(books[i].stories[j])
  }

  /** Every entry under a theme comes from a story of a book that lists it. */
  lemma {:induction false} ThemeEntriesCarry(books: seq<Book>, theme: string)
    ensures forall e :: e in ThemeEntries(books, theme) ==> CarriedBy(books, theme, e)
    decreases |books|
  {
    if books != [] {
      ThemeEntriesCarry(books[1..], theme);
      StoryEntriesCarry(books[0], books[0].stories, theme);
      forall e | e in ThemeEntries(books, theme) ensures CarriedBy(books, theme, e) {
        if e in StoryEntries(books[0], books[0].stories, theme) {
          var j :| 0 <= j < |books[0].stories| && e == EntryFor(books[0], books[0].stories[j]) &&
            theme in ThemesOf(books[0].stories[j]);
        } else {
          assert e in ThemeEntries(books[1..], theme);
          assert CarriedBy(books[1..], theme, e);
          var i, j :| 0 <= i < |books[1..]| && 0 <= j < |books[1..][i].stories| &&
            e == EntryFor(books[1..][i], books[1..][i].stories[j]) && theme in ThemesOf(books[1..][i].stories[j]);
          assert books[i + 1] == books[1..][i];
        }
      }
    }
  }

  /** Appending a story without `themes` to a book changes no theme's entries. */
  lemma UnthemedStoryIgnored(book: Book, stories: seq<Story>, s: Story, theme: string)
    requires s.themes.None?
    ensures StoryEntries(book, stories + [s], theme) == StoryEntries(book, stories, theme)
  {
    StoryEntriesSnoc(book, stories, s, theme);
  }

  // ----- The loops as written -----

  /** The members a fresh `{}` inherits from `Object.prototype`. */
  const InheritedKeys: set<string> := {
    "constructor", "hasOwnProperty", "isPrototypeOf", "propertyIsEnumerable",
    "toLocaleString", "toString", "valueOf", "__proto__",
    "__defineGetter__", "__defineSetter__", "__lookupGetter__", "__lookupSetter__"}

  /** The loop body exactly as written, on a plain object: `!map[theme]` is
      false for an inherited member (a function or `Object.prototype`), so no
      array is created, and the `push` that follows throws; `None` is that
      `TypeError`. */
  function RecordAsWritten(visits: seq<Visit>): (r: Option<ThemeIndex>)
    ensures r.Some? ==> r.value.Keys !! InheritedKeys
    decreases |visits|
  {
    if visits == [] then Some(map[])
    else
      var last := visits[|visits| - 1];
      match RecordAsWritten(visits[..|visits| - 1])
      case None => None
      case Some(m) =>
        if last.0 in m then Some(m[last.0 := m[last.0] + [last.1]])
        else if last.0 in InheritedKeys then None
        else Some(m[last.0 := [last.1]])
  }

  /** As written, building the index throws exactly when some story lists a
      theme named like an inherited member. */
  lemma {:induction false} RecordAsWrittenThrows(visits: seq<Visit>)
    ensures RecordAsWritten(visits).None? <==> exists k :: 0 <= k < |visits| && visits[k].0 in InheritedKeys
    decreases |visits|
  {
    if visits != [] {
      var init := visits[..|visits| - 1];
      RecordAsWrittenThrows(init);
      if exists k :: 0 <= k < |init| && init[k].0 in InheritedKeys {
        var k :| 0 <= k < |init| && init[k].0 in InheritedKeys;
        assert visits[k] == init[k];
      }
      if exists k :: 0 <= k < |visits| && visits[k].0 in InheritedKeys {
        var k :| 0 <= k < |visits| && visits[k].0 in InheritedKeys;
        if k < |init| {
          assert init[k] == visits[k];
        }
      }
    }
  }

  /** When no visited theme is an inherited name, the code as written does not
      throw and builds exactly what the loops record. */
  lemma {:induction false} RecordAsWrittenAgrees(visits: seq<Visit>)
    requires forall k :: 0 <= k < |visits| ==> visits[k].0 !in InheritedKeys
    ensures RecordAsWritten(visits).Some?
    ensures forall t :: t in RecordAsWritten(visits).value <==> Recorded(visits, t) != []
    ensures forall t :: t in RecordAsWritten(visits).value ==> RecordAsWritten(visits).value[t] == Recorded(visits, t)
    decreases |visits|
  {
    if visits != [] {
      var init := visits[..|visits| - 1];
      assert forall k :: 0 <= k < |init| ==> init[k] == visits[k];
      RecordAsWrittenAgrees(init);
    }
  }

  /** A visit of `theme` records something for it. */
  lemma {:induction false} RecordedVisited(visits: seq<Visit>, k: nat)
    requires k < |visits|
    ensures Recorded(visits, visits[k].0) != []
    decreases |visits|
  {
    var init := visits[..|visits| - 1];
    if k < |init| {
      assert init[k] == visits[k];
      RecordedVisited(init, k);
    }
  }

  /** When no story lists an inherited name, the code as written yields the
      corrected index: the same keys, each with the same list. */
  lemma RecordAsWrittenMatchesIndex(books: seq<Book>)
    requires forall t :: t in InheritedKeys ==> ThemeEntries(books, t) == []
    ensures RecordAsWritten(Visits(books)).Some?
    ensures forall t :: t in RecordAsWritten(Visits(books)).value <==> ThemeEntries(books, t) != []
    ensures forall t :: t in RecordAsWritten(Visits(books)).value ==>
              RecordAsWritten(Visits(books)).value[t] == ThemeEntries(books, t)
  {
    var visits := Visits(books);
    forall t ensures Recorded(visits, t) == ThemeEntries(books, t) {
      RecordedVisits(books, t);
    }
    forall k | 0 <= k < |visits| ensures visits[k].0 !in InheritedKeys {
      RecordedVisited(visits, k);
    }
    RecordAsWrittenAgrees(visits);
  }

  /** The smallest case: one book, one story, the theme "constructor". As
      written the page throws; the corrected index has the entry. */
  lemma ConstructorThemeThrows()
    ensures var story := Story("s1", "", "", "", Some(["constructor"]), []);
            var books := [Book("gen", "Genesis", "Torah", "", [story])];
            RecordAsWritten(Visits(books)).None? &&
            ThemeEntries(books, "constructor") == [ThemeEntry("gen", "Genesis", story)]
  {
    var story := Story("s1", "", "", "", Some(["constructor"]), []);
    var book := Book("gen", "Genesis", "Torah", "", [story]);
    var books := [book];
    assert ["constructor"][..0] == [];
    assert [story][..0] == [];
    assert books[..0] == [];
    assert ThemeVisits(book, story, ["constructor"]) == [("constructor", EntryFor(book, story))];
    assert StoryVisits(book, [story]) == [("constructor", EntryFor(book, story))];
    assert Visits(books) == [("constructor", EntryFor(book, story))];
    RecordAsWrittenThrows(Visits(books));
    assert multiset(ThemesOf(story))["constructor"] == 1;
    assert Repeat(EntryFor(book, story), 1) == [EntryFor(book, story)];
    assert [story][1..] == [] && books[1..] == [];
    assert StoryEntries(book, [story], "constructor") == [EntryFor(book, story)];
  }
}
