/**
 * The data side of the arrow card that lists a blog post or a project: the
 * link it points to, the optional kind pill, and one coloured badge per tag.
 * Markup and styling are left to the display layer.
 */
module ArrowCard {
  import opened Wrappers
  import opened AsciiCase
  import opened TagColors

  /** A calendar date; how it is shown is decided by a formatter passed in. */
  datatype Date = Date(year: int, month: nat, day: nat)

  /**
   * One content entry. `collection` is the name of the content collection the
   * entry belongs to ("blog" or "projects" on this site).
   */
  datatype Entry = Entry(
    collection: string,
    slug: string,
    title: string,
    date: Date,
    summary: string,
    tags: seq<string>)

  /** A tag badge: the tag as written, and its background-colour token. */
  datatype Badge = Badge(text: string, color: string)

  /** What the card shows, before it is turned into markup. */
  datatype Card = Card(
    href: string,
    pillLabel: Option<string>,
    dateText: string,
    title: string,
    summary: string,
    badges: seq<Badge>)

  /** The link of an entry: `/<collection>/<slug>`. */
  function Href(collection: string, slug: string): (r: string)
    ensures |r| == |collection| + |slug| + 2
    ensures r[0] == '/' && r[|collection| + 1] == '/'
    ensures r[1..|collection| + 1] == collection && r[|collection| + 2..] == slug
  {
    "/" + collection + "/" + slug
  }

  /**
   * Reads a link back into its collection and slug: the collection runs up to
   * the first `/` after the leading one, and the slug is everything after it.
   */
  function SplitHref(href: string): (r: Option<(string, string)>)
    ensures r.Some? ==> '/' !in r.value.0 && Href(r.value.0, r.value.1) == href
  {
    if |href| == 0 || href[0] != '/' then None
    else
      var rest := href[1..];
      match IndexOf(rest, '/')
      case None => None
      case Some(i) =>
        assert href == "/" + rest[..i] + "/" + rest[i + 1..];
        Some((rest[..i], rest[i + 1..]))
  }

  /** A link built from a collection name without `/` reads back to its parts. */
  lemma HrefRoundTrip(collection: string, slug: string)
    requires '/' !in collection
    ensures SplitHref(Href(collection, slug)) == Some((collection, slug))
  {
    var rest := Href(collection, slug)[1..];
    assert rest == collection + "/" + slug;
    assert rest[|collection|] == '/';
    assert forall j :: 0 <= j < |collection| ==> rest[j] == collection[j];
    assert rest[..|collection|] == collection;
    assert rest[|collection| + 1..] == slug;
  }

  /**
   * Links tell entries apart: for collection names without `/`, two links are
   * equal exactly when both the collections and the slugs are.
   */
  lemma HrefInjective(c1: string, s1: string, c2: string, s2: string)
    requires '/' !in c1 && '/' !in c2
    ensures Href(c1, s1) == Href(c2, s2) <==> c1 == c2 && s1 == s2
  {
    HrefRoundTrip(c1, s1);
    HrefRoundTrip(c2, s2);
  }

  /**
   * The kind pill: present only when the `pill` prop is `true` (an omitted
   * prop is `None`), reading "post" for the blog collection and "project" for
   * any other.
   */
  function PillLabel(collection: string, pill: Option<bool>): (r: Option<string>)
    ensures r.Some? <==> pill == Some(true)
    ensures r.Some? ==> (r.value == "post" <==> collection == "blog")
    ensures r.Some? ==> (r.value == "project" <==> collection != "blog")
  {
    if pill == Some(true) then Some(if collection == "blog" then "post" else "project")
    else None
  }

  /** One badge per tag, in order, each keeping the tag's text. */
  function Badges(tags: seq<string>): (r: seq<Badge>)
    ensures |r| == |tags|
    ensures forall i :: 0 <= i < |tags| ==> r[i].text == tags[i]
    ensures forall i :: 0 <= i < |tags| ==> r[i].color == TagColor(tags[i])
  {
    if |tags| == 0 then []
    else [Badge(tags[0], TagColor(tags[0]))] + Badges(tags[1..])
  }

  /** The texts shown on a row of badges. */
  function BadgeTexts(badges: seq<Badge>): (r: seq<string>)
    ensures |r| == |badges|
    ensures forall i :: 0 <= i < |badges| ==> r[i] == badges[i].text
  {
    seq(|badges|, i requires 0 <= i < |badges| => badges[i].text)
  }

  /** The badges give back the tags exactly: nothing is lower-cased, dropped or reordered. */
  lemma BadgeTextsRoundTrip(tags: seq<string>)
    ensures BadgeTexts(Badges(tags)) == tags
  {
  }

  /** Badging a concatenation badges each part and concatenates, so order is kept. */
  lemma BadgesAppend(a: seq<string>, b: seq<string>)
    ensures Badges(a + b) == Badges(a) + Badges(b)
  {
    var whole, parts := Badges(a + b), Badges(a) + Badges(b);
    forall i | 0 <= i < |whole|
      ensures whole[i] == parts[i]
    {
      if i < |a| {
        assert parts[i] == Badges(a)[i];
      } else {
        assert parts[i] == Badges(b)[i - |a|];
      }
    }
  }

  /**
   * Renders the data of one card. `formatDate` stands for the date formatter
   * the component imports; it is outside this model.
   */
  function RenderCard(entry: Entry, pill: Option<bool>, formatDate: Date -> string): (r: Card)
    ensures r.href == "/" + entry.collection + "/" + entry.slug
    ensures r.pillLabel.Some? <==> pill == Some(true)
    ensures r.pillLabel.Some? ==> r.pillLabel.value == (if entry.collection == "blog" then "post" else "project")
    ensures r.dateText == formatDate(entry.date)
    ensures r.title == entry.title && r.summary == entry.summary
    ensures BadgeTexts(r.badges) == entry.tags
    ensures forall i :: 0 <= i < |r.badges| ==> r.badges[i].color == TagColor(entry.tags[i])
  {
    BadgeTextsRoundTrip(entry.tags);
    Card(
      Href(entry.collection, entry.slug),
      PillLabel(entry.collection, pill),
      formatDate(entry.date),
      entry.title,
      entry.summary,
      Badges(entry.tags))
  }

  /** The card's link identifies its entry when the collection name has no `/`. */
  lemma CardLinkIdentifiesEntry(entry: Entry, pill: Option<bool>, formatDate: Date -> string)
    requires '/' !in entry.collection
    ensures SplitHref(RenderCard(entry, pill, formatDate).href) == Some((entry.collection, entry.slug))
  {
    HrefRoundTrip(entry.collection, entry.slug);
  }

  /** Entries of the site's two collections with different slugs or collections get different links. */
  lemma DistinctEntriesDistinctLinks(
    e1: Entry, p1: Option<bool>, f1: Date -> string,
    e2: Entry, p2: Option<bool>, f2: Date -> string)
    requires e1.collection in {"blog", "projects"} && e2.collection in {"blog", "projects"}
    requires (e1.collection, e1.slug) != (e2.collection, e2.slug)
    ensures RenderCard(e1, p1, f1).href != RenderCard(e2, p2, f2).href
  {
    HrefInjective(e1.collection, e1.slug, e2.collection, e2.slug);
  }

  /**
   * Badge colours do not depend on how a tag is capitalised: tags that agree
   * ignoring case, position by position, get the same colours.
   */
  lemma BadgeColorsIgnoreCase(tags: seq<string>, tags': seq<string>)
    requires |tags| == |tags'|
    requires forall i :: 0 <= i < |tags| ==> EqualIgnoringCase(tags[i], tags'[i])
    ensures forall i :: 0 <= i < |tags| ==> Badges(tags)[i].color == Badges(tags')[i].color
  {
    forall i | 0 <= i < |tags|
      ensures Badges(tags)[i].color == Badges(tags')[i].color
    {
      SameColorIgnoringCase(tags[i], tags'[i]);
    }
  }

  /** A card for a post with two tags: order and display text are kept, colours resolved. */
  lemma RenderExample(formatDate: Date -> string)
    ensures var e := Entry("blog", "hello-world", "Hello", Date(2024, 1, 2), "", ["Swift", "iOS"]);
      var c := RenderCard(e, Some(true), formatDate);
      && c.href == "/blog/hello-world"
      && c.pillLabel == Some("post")
      && c.badges == [Badge("Swift", DefaultColor), Badge("iOS", "bg-salmon")]
  {
    var tags := ["Swift", "iOS"];
    var b := Badges(tags);
    assert TagColor("Swift") == DefaultColor by {
      TagColorDefaultIffMiss("Swift");
      assert Lower("Swift")[0] == 's';
    }
    assert TagColor("iOS") == "bg-salmon" by {
      IosResolves();
    }
    assert b[0] == Badge("Swift", DefaultColor);
    assert b[1] == Badge("iOS", "bg-salmon");
    assert b == [Badge("Swift", DefaultColor), Badge("iOS", "bg-salmon")];
  }

  /**
   * An entry without tags gets no badges whether or not the pill is shown,
   * and an omitted pill prop shows no pill.
   */
  lemma NoTagsNoBadges(entry: Entry, pill: Option<bool>, formatDate: Date -> string)
    requires entry.tags == []
    ensures RenderCard(entry, pill, formatDate).badges == []
    ensures RenderCard(entry, None, formatDate).pillLabel == None
  {
  }
}
