/** The data-access layer: listings, slug lookups, the article/author join
    and the topic display name, all over one content store. */
module Data {
  import opened Types
  import opened Seqs
  import opened ArticleOrder
  import opened SlugText

  function ArticleSlugIs(slug: string): Article -> bool { (a: Article) => a.slug == slug }
  function WriterSlugIs(slug: string): Writer -> bool { (w: Writer) => w.slug == slug }
  function TopicSlugIs(slug: string): Topic -> bool { (t: Topic) => t.slug == slug }
  function IsFeatured(): Article -> bool { (a: Article) => a.featured }
  function TopicIs(topicSlug: string): Article -> bool { (a: Article) => a.topic == topicSlug }
  function AuthorIs(authorSlug: string): Article -> bool { (a: Article) => a.authorSlug == authorSlug }

  // ─── Articles ───────────────────────────────────────────────────────────

  /** Every article, newest first; equal dates keep their source order. The
      source list is copied into a fresh array and only the copy is sorted. */
  method GetAllArticles(store: Store) returns (sorted: seq<Article>)
    ensures sorted == SortByDate(store.articles)
    ensures SortedByDate(sorted)
    ensures multiset(sorted) == multiset(store.articles)
  {
    var n := |store.articles|;
    var copy := new Article[n](i requires 0 <= i < n => store.articles[i]);
    assert copy[..] == store.articles;
    SortInPlace(copy);
    sorted := copy[..];
    SortByDateSorted(store.articles);
    SortByDatePermutation(store.articles);
  }

  /** The first article in source order with this slug. */
  function GetArticleBySlug(store: Store, slug: string): (r: Option<Article>)
    ensures r.None? <==> forall i :: 0 <= i < |store.articles| ==> store.articles[i].slug != slug
    ensures r.Some? ==> exists i :: 0 <= i < |store.articles| && store.articles[i] == r.value &&
                                    r.value.slug == slug &&
                                    forall j :: 0 <= j < i ==> store.articles[j].slug != slug
  {
    Find(store.articles, ArticleSlugIs(slug))
  }

  /** The first featured article in source order (not date order). */
  function GetFeaturedArticle(store: Store): (r: Option<Article>)
    ensures r.None? <==> forall i :: 0 <= i < |store.articles| ==> !store.articles[i].featured
    ensures r.Some? ==> exists i :: 0 <= i < |store.articles| && store.articles[i] == r.value &&
                                    r.value.featured &&
                                    forall j :: 0 <= j < i ==> !store.articles[j].featured
  {
    Find(store.articles, IsFeatured())
  }

  /** The newest-first listing restricted to one topic. */
  function GetArticlesByTopic(store: Store, topicSlug: string): (r: seq<Article>)
    ensures forall i :: 0 <= i < |r| ==> r[i].topic == topicSlug
  {
    Filter(SortByDate(store.articles), TopicIs(topicSlug))
  }

  /** The newest-first listing restricted to one author. */
  function GetArticlesByAuthor(store: Store, authorSlug: string): (r: seq<Article>)
    ensures forall i :: 0 <= i < |r| ==> r[i].authorSlug == authorSlug
  {
    Filter(SortByDate(store.articles), AuthorIs(authorSlug))
  }

  /** The article with this slug and its author; absent when either the
      article or the writer it names is missing. */
  function GetArticleWithAuthor(store: Store, slug: string): (r: Option<ArticleWithAuthor>)
    ensures r.None? <==>
      || GetArticleBySlug(store, slug).None?
      || GetWriterBySlug(store, GetArticleBySlug(store, slug).value.authorSlug).None?
    ensures r.Some? ==>
      && r.value.article == GetArticleBySlug(store, slug).value
      && r.value.article.slug == slug
      && r.value.author.slug == r.value.article.authorSlug
      && r.value.article in store.articles
      && r.value.author in store.writers
      && r.value.author == GetWriterBySlug(store, r.value.article.authorSlug).value
  {
    match GetArticleBySlug(store, slug)
    case None => None
    case Some(article) =>
      match GetWriterBySlug(store, article.authorSlug)
      case None => None
      case Some(author) => Some(ArticleWithAuthor(article, author))
  }

  // ─── Writers ────────────────────────────────────────────────────────────

  /** The stored writers as they are, in source order. */
  function GetAllWriters(store: Store): (r: seq<Writer>)
    ensures r == store.writers
  {
    store.writers
  }

  /** The first writer in source order with this slug. */
  function GetWriterBySlug(store: Store, slug: string): (r: Option<Writer>)
    ensures r.None? <==> forall i :: 0 <= i < |store.writers| ==> store.writers[i].slug != slug
    ensures r.Some? ==> exists i :: 0 <= i < |store.writers| && store.writers[i] == r.value &&
                                    r.value.slug == slug &&
                                    forall j :: 0 <= j < i ==> store.writers[j].slug != slug
  {
    Find(store.writers, WriterSlugIs(slug))
  }

  // ─── Topics ─────────────────────────────────────────────────────────────

  /** The stored topics as they are, in source order. */
  function GetAllTopics(store: Store): (r: seq<Topic>)
    ensures r == store.topics
  {
    store.topics
  }

  /** The first topic in source order with this slug. */
  function GetTopicBySlug(store: Store, slug: string): (r: Option<Topic>)
    ensures r.None? <==> forall i :: 0 <= i < |store.topics| ==> store.topics[i].slug != slug
    ensures r.Some? ==> exists i :: 0 <= i < |store.topics| && store.topics[i] == r.value &&
                                    r.value.slug == slug &&
                                    forall j :: 0 <= j < i ==> store.topics[j].slug != slug
  {
    Find(store.topics, TopicSlugIs(slug))
  }

  /** The topic's name when the slug is known; otherwise the slug with its
      hyphens turned into en-dashes and each segment capitalised. */
  function GetTopicName(store: Store, slug: string): (r: string)
    ensures GetTopicBySlug(store, slug).Some? ==> r == GetTopicBySlug(store, slug).value.name
    ensures GetTopicBySlug(store, slug).None? ==>
      && r == TitleCase(slug, true)
      && |r| == |slug|
      && Hyphen !in r
      && multiset(r)[EnDash] == multiset(slug)[Hyphen] + multiset(slug)[EnDash]
  {
    match GetTopicBySlug(store, slug)
    case Some(topic) => topic.name
    case None =>
      FallbackIsTitleCase(slug);
      TitleCaseCounts(slug, true);
      FallbackName(slug)
  }

  // ─── Properties ─────────────────────────────────────────────────────────

  /** A topic listing is the sorted listing of that topic's source
      articles: newest first, stable, and holding each of them. */
  lemma ArticlesByTopicSpec(store: Store, topicSlug: string)
    ensures GetArticlesByTopic(store, topicSlug) == SortByDate(Filter(store.articles, TopicIs(topicSlug)))
    ensures SortedByDate(GetArticlesByTopic(store, topicSlug))
    ensures multiset(GetArticlesByTopic(store, topicSlug)) == multiset(Filter(store.articles, TopicIs(topicSlug)))
  {
    var f := Filter(store.articles, TopicIs(topicSlug));
    SortFilterCommute(store.articles, TopicIs(topicSlug));
    SortByDateSorted(f);
    SortByDatePermutation(f);
  }

  /** An article is in a topic listing exactly when it is stored under
      that topic. */
  lemma TopicListingMember(store: Store, topicSlug: string, a: Article)
    ensures a in GetArticlesByTopic(store, topicSlug) <==> a in store.articles && a.topic == topicSlug
  {
    FilterMember(SortByDate(store.articles), TopicIs(topicSlug), a);
    SortByDatePermutation(store.articles);
    assert a in SortByDate(store.articles) <==> a in multiset(SortByDate(store.articles));
  }

  /** Topic listings partition the articles: each stored article is in its
      own topic's listing and in no other. */
  lemma TopicListingsPartition(store: Store, a: Article, otherTopic: string)
    requires a in store.articles && otherTopic != a.topic
    ensures a in GetArticlesByTopic(store, a.topic)
    ensures a !in GetArticlesByTopic(store, otherTopic)
  {
    TopicListingMember(store, a.topic, a);
    TopicListingMember(store, otherTopic, a);
  }

  /** An author listing is the sorted listing of that author's source
      articles. */
  lemma ArticlesByAuthorSpec(store: Store, authorSlug: string)
    ensures GetArticlesByAuthor(store, authorSlug) == SortByDate(Filter(store.articles, AuthorIs(authorSlug)))
    ensures SortedByDate(GetArticlesByAuthor(store, authorSlug))
    ensures multiset(GetArticlesByAuthor(store, authorSlug)) == multiset(Filter(store.articles, AuthorIs(authorSlug)))
  {
    var f := Filter(store.articles, AuthorIs(authorSlug));
    SortFilterCommute(store.articles, AuthorIs(authorSlug));
    SortByDateSorted(f);
    SortByDatePermutation(f);
  }

  lemma AuthorListingMember(store: Store, authorSlug: string, a: Article)
    ensures a in GetArticlesByAuthor(store, authorSlug) <==> a in store.articles && a.authorSlug == authorSlug
  {
    FilterMember(SortByDate(store.articles), AuthorIs(authorSlug), a);
    SortByDatePermutation(store.articles);
    assert a in SortByDate(store.articles) <==> a in multiset(SortByDate(store.articles));
  }

  /** Every stored article's slug resolves, so no listed article page is a
      dead end. */
  lemma StoredSlugsResolve(store: Store, i: nat)
    requires i < |store.articles|
    ensures GetArticleBySlug(store, store.articles[i].slug).Some?
    ensures GetArticleBySlug(store, store.articles[i].slug).value.slug == store.articles[i].slug
  {
  }

  /** Every listed writer resolves by its slug, to a writer with that slug. */
  lemma ListedWritersResolve(store: Store, i: nat)
    requires i < |GetAllWriters(store)|
    ensures GetWriterBySlug(store, GetAllWriters(store)[i].slug).Some?
    ensures GetWriterBySlug(store, GetAllWriters(store)[i].slug).value.slug == GetAllWriters(store)[i].slug
  {
  }

  /** Every listed topic resolves by its slug, and its label is then the
      name of a stored topic. */
  lemma ListedTopicsResolve(store: Store, j: nat)
    requires j < |GetAllTopics(store)|
    ensures GetTopicBySlug(store, GetAllTopics(store)[j].slug).Some?
    ensures GetTopicName(store, GetAllTopics(store)[j].slug) == GetTopicBySlug(store, GetAllTopics(store)[j].slug).value.name
  {
  }

  /** With unique slugs, the lookup returns the one article carrying it. */
  lemma UniqueSlugLookup(store: Store, i: nat)
    requires i < |store.articles|
    requires forall j, k :: 0 <= j < k < |store.articles| ==> store.articles[j].slug != store.articles[k].slug
    ensures GetArticleBySlug(store, store.articles[i].slug) == Some(store.articles[i])
  {
    var r := GetArticleBySlug(store, store.articles[i].slug);
    var j :| 0 <= j < |store.articles| && store.articles[j] == r.value &&
             r.value.slug == store.articles[i].slug &&
             forall m :: 0 <= m < j ==> store.articles[m].slug != store.articles[i].slug;
    assert j == i;
  }

  /** A dangling author reference hides the article from the join. */
  lemma DanglingAuthorNotFound(store: Store, slug: string)
    requires GetArticleBySlug(store, slug).Some?
    requires forall w :: w in store.writers ==> w.slug != GetArticleBySlug(store, slug).value.authorSlug
    ensures GetArticleWithAuthor(store, slug).None?
  {
  }

  /** The two-article scenario: the newer article lists first and the only
      featured one is found, whatever its position. */
  lemma TwoArticleScenario(a: Article, b: Article)
    requires a.slug == "a" && a.date == 1704067200000 && !a.featured
    requires b.slug == "b" && b.date == 1717200000000 && b.featured
    ensures SortByDate([a, b]) == [b, a]
    ensures GetFeaturedArticle(Store([a, b], [], [])) == Some(b)
  {
    assert [a, b][..1] == [a];
    assert [a][..0] == [];
  }

  /** Several featured articles collapse to the first in source order,
      even when a later one is newer. */
  lemma FirstFeaturedWins(a: Article, b: Article)
    requires a.featured && b.featured && a.date < b.date
    ensures GetFeaturedArticle(Store([a, b], [], [])) == Some(a)
  {
  }

  /** An unknown slug gets its fallback label. */
  lemma UnknownTopicLabel(store: Store, slug: string)
    requires forall t :: t in store.topics ==> t.slug != slug
    requires slug == "unlisted-topic-slug"
    ensures GetTopicName(store, slug) == "Unlisted" + [EnDash] + ("Topic" + [EnDash] + "Slug")
  {
    ThreeSegmentLabel(slug);
    assert GetTopicBySlug(store, slug).None?;
  }

  lemma ThreeSegmentLabel(slug: string)
    requires slug == "unlisted-topic-slug"
    ensures TitleCase(slug, true) == "Unlisted" + [EnDash] + ("Topic" + [EnDash] + "Slug")
  {
    var tail := "topic" + [Hyphen] + "slug";
    assert slug == "unlisted" + [Hyphen] + tail;
    TitleCaseSegmentThen("unlisted", tail, true);
    TwoSegmentLabel();
    assert Capitalize("unlisted") == "Unlisted";
  }

  lemma TwoSegmentLabel()
    ensures TitleCase("topic" + [Hyphen] + "slug", true) == "Topic" + [EnDash] + "Slug"
  {
    TitleCaseSegmentThen("topic", "slug", true);
    TitleCaseSegment("slug", true);
    assert Capitalize("topic") == "Topic";
    assert Capitalize("slug") == "Slug";
  }
}
