/** The detail pages' lookups: a book by its id (BookDetailPage) and a story by
    book id and story id (StoryDetailPage). A miss is `None`, which the pages
    render as "Book not found" or "Story not found". */
module Pages {
  import opened Wrappers
  import opened Seqs
  import opened Content

  /** Position `i` holds the first book with id `bookId`. */
  ghost predicate FirstBookAt(books: seq<Book>, bookId: string, i: int) {
    0 <= i < |books| && books[i].id == bookId &&
    forall j :: 0 <= j < i ==> books[j].id != bookId
  }

  /** Position `k` of the first book with id `bookId` holds that book's first
      story with id `storyId`. */
  ghost predicate StoryAt(books: seq<Book>, bookId: string, storyId: string, i: int, k: int) {
    FirstBookAt(books, bookId, i) &&
    0 <= k < |books[i].stories| && books[i].stories[k].id == storyId &&
    forall m :: 0 <= m < k ==> books[i].stories[m].id != storyId
  }

  /** `books.find(b => b.id === bookId)`. */
  function FindBook(books: seq<Book>, bookId: string): (r: Option<Book>)
    ensures r.None? <==> forall b :: b in books ==> b.id != bookId
    ensures r.Some? ==> exists i :: FirstBookAt(books, bookId, i) && books[i] == r.value
  {
    var matches := (b: Book) => b.id == bookId;
    FindFirst(books, matches);
    Find(books, matches)
  }

  /** `book?.stories.find(s => s.id === storyId)` after `FindBook`. */
  function FindStory(books: seq<Book>, bookId: string, storyId: string): (r: Option<Story>)
  {
    match FindBook(books, bookId)
    case None => None
    case Some(book) => Find(book.stories, (s: Story) => s.id == storyId)
  }

  lemma FirstBookUnique(books: seq<Book>, bookId: string, i: int, j: int)
    requires FirstBookAt(books, bookId, i) && FirstBookAt(books, bookId, j)
    ensures i == j
  {
  }

  /** A story lookup misses when the book is missing or the first book with that
      id has no story with that id; otherwise it returns that book's first
      story with that id. */
  lemma FindStorySpec(books: seq<Book>, bookId: string, storyId: string)
    ensures FindStory(books, bookId, storyId).None? <==>
      forall i, k :: !StoryAt(books, bookId, storyId, i, k)
    ensures FindStory(books, bookId, storyId).Some? ==>
      exists i, k :: StoryAt(books, bookId, storyId, i, k) &&
        FindStory(books, bookId, storyId).value == books[i].stories[k]
  {
    var bookMatches := (b: Book) => b.id == bookId;
    var storyMatches := (s: Story) => s.id == storyId;
    match FindIndex(books, bookMatches)
    case None =>
      assert FindBook(books, bookId).None?;
    case Some(i) =>
      assert FirstBookAt(books, bookId, i);
      var stories := books[i].stories;
      assert FindStory(books, bookId, storyId) == Find(stories, storyMatches);
      forall i' | FirstBookAt(books, bookId, i') ensures i' == i {
        FirstBookUnique(books, bookId, i, i');
      }
      match FindIndex(stories, storyMatches)
      case None =>
      case Some(k) =>
        assert StoryAt(books, bookId, storyId, i, k);
  }
}
