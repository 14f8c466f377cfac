/** The bundled content tree (books, their stories, the stories' study
    resources) and the two small values the book cards derive from it: the
    category badge's classes and the resource count. */
module Content {
  import opened Wrappers

  /** A study resource; `kind` is the JSON field `type`. */
  datatype Resource = Resource(kind: string, title: string, author: Option<string>, url: string)

  /** A story; `themes` may be absent from the JSON. */
  datatype Story = Story(
    id: string,
    title: string,
    reference: string,
    summary: string,
    themes: Option<seq<string>>,
    resources: seq<Resource>)

  datatype Book = Book(id: string, name: string, category: string, description: string, stories: seq<Story>)

  /** The themes `story.themes?.forEach` visits: none when the field is absent. */
  function ThemesOf(story: Story): seq<string> {
    match story.themes
    case None => []
    case Some(ts) => ts
  }

  // ----- CategoryBadge -----

  const KnownCategories: set<string> := {"Torah", "Former Prophets", "Five Scrolls", "Writings"}

  const BadgeStyles: map<string, string> := map[
    "Torah" := "bg-category-torah text-category-torah-dot",
    "Former Prophets" := "bg-category-prophets text-category-prophets-dot",
    "Five Scrolls" := "bg-category-scrolls text-category-scrolls-dot",
    "Writings" := "bg-category-writings text-category-writings-dot"]

  const DotStyles: map<string, string> := map[
    "Torah" := "bg-category-torah-dot",
    "Former Prophets" := "bg-category-prophets-dot",
    "Five Scrolls" := "bg-category-scrolls-dot",
    "Writings" := "bg-category-writings-dot"]

  const DefaultBadgeStyle := "bg-gray-100 text-gray-500"
  const DefaultDotStyle := "bg-gray-400"

  /** `table[key] || fallback`: a missing key, or an empty entry, gives the fallback. */
  function LookupOr(table: map<string, string>, key: string, fallback: string): string {
    if key in table && table[key] != "" then table[key] else fallback
  }

  /** The badge's colour classes for a category. */
  function BadgeStyle(category: string): (r: string)
    ensures category in KnownCategories ==> r == BadgeStyles[category]
    ensures r == DefaultBadgeStyle <==> category !in KnownCategories
  {
    LookupOr(BadgeStyles, category, DefaultBadgeStyle)
  }

  /** The badge dot's colour class for a category. */
  function DotStyle(category: string): (r: string)
    ensures category in KnownCategories ==> r == DotStyles[category]
    ensures r == DefaultDotStyle <==> category !in KnownCategories
  {
    LookupOr(DotStyles, category, DefaultDotStyle)
  }

  /** The four known categories have four different badges, and the badge and
      its dot fall back together. */
  lemma BadgeStylesDistinguish(c1: string, c2: string)
    requires c1 in KnownCategories && c1 != c2
    ensures BadgeStyle(c1) != BadgeStyle(c2) && DotStyle(c1) != DotStyle(c2)
    ensures (BadgeStyle(c2) == DefaultBadgeStyle) <==> (DotStyle(c2) == DefaultDotStyle)
  {
  }

  // ----- BookCard's resource count -----

  /** `stories.reduce((acc, s) => acc + s.resources.length, acc)`. */
  function ReduceResources(acc: nat, stories: seq<Story>): nat
    decreases |stories|
  {
    if stories == [] then acc
    else ReduceResources(acc + |stories[0].resources|, stories[1..])
  }

  /** The number shown as "N resources" on a book's card. */
  function ResourceCount(book: Book): nat {
    ReduceResources(0, book.stories)
  }

  /** Every resource of the given stories, story by story. */
  function AllResources(stories: seq<Story>): seq<Resource>
    decreases |stories|
  {
    if stories == [] then [] else stories[0].resources + AllResources(stories[1..])
  }

  lemma {:induction false} ReduceResourcesTotal(acc: nat, stories: seq<Story>)
    ensures ReduceResources(acc, stories) == acc + |AllResources(stories)|
    decreases |stories|
  {
    if stories != [] {
      ReduceResourcesTotal(acc + |stories[0].resources|, stories[1..]);
    }
  }

  /** The card counts exactly the resources of the book's stories. */
  lemma ResourceCountTotal(book: Book)
    ensures ResourceCount(book) == |AllResources(book.stories)|
  {
    ReduceResourcesTotal(0, book.stories);
  }

  lemma {:induction false} AllResourcesEmpty(stories: seq<Story>)
    ensures AllResources(stories) == [] <==> forall s :: s in stories ==> s.resources == []
    decreases |stories|
  {
    if stories != [] {
      AllResourcesEmpty(stories[1..]);
      assert stories == [stories[0]] + stories[1..];
    }
  }

  /** The card shows 0 exactly when no story of the book has a resource. */
  lemma ResourceCountZero(book: Book)
    ensures ResourceCount(book) == 0 <==> forall s :: s in book.stories ==> s.resources == []
  {
    ResourceCountTotal(book);
    AllResourcesEmpty(book.stories);
  }

  lemma {:induction false} AllResourcesAppend(a: seq<Story>, b: seq<Story>)
    ensures AllResources(a + b) == AllResources(a) + AllResources(b)
    decreases |a|
  {
    if a != [] {
      assert (a + b)[0] == a[0];
      assert (a + b)[1..] == a[1..] + b;
      AllResourcesAppend(a[1..], b);
    } else {
      assert a + b == b;
    }
  }

  /** Counting over two runs of stories adds up. */
  lemma ResourceCountAppend(book: Book, more: seq<Story>)
    ensures ResourceCount(book.(stories := book.stories + more)) ==
            ResourceCount(book) + |AllResources(more)|
  {
    ResourceCountTotal(book);
    ResourceCountTotal(book.(stories := book.stories + more));
    AllResourcesAppend(book.stories, more);
  }
}
