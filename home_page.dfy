/** The homepage's choice of what to show: the featured hero with its
    author, the five latest and three secondary non-featured articles, one
    highlight per topic (at most four), the "more in this topic" sidebar and
    the "Live: " title prefix. Markup is not modelled. */
module HomePage {
  import opened Types
  import opened Seqs
  import opened ArticleOrder
  import opened Data

  const LatestCount: nat := 5
  const SecondaryEnd: nat := 8
  const HighlightCount: nat := 4
  const SidebarCount: nat := 3
  const LivePrefix: string := "Live: "

  function NotFeatured(): Article -> bool { (a: Article) => !a.featured }

  function InTopicNotFeatured(topicSlug: string): Article -> bool {
    (a: Article) => a.topic == topicSlug && !a.featured
  }

  function NonFeatured(all: seq<Article>): seq<Article> { Filter(all, NotFeatured()) }

  /** The first five non-featured articles of the listing. */
  function LatestArticles(all: seq<Article>): (r: seq<Article>)
    ensures |r| == Min(LatestCount, |NonFeatured(all)|)
    ensures r <= NonFeatured(all)
    ensures forall i :: 0 <= i < |r| ==> !r[i].featured
  {
    Slice(NonFeatured(all), 0, LatestCount)
  }

  /** The sixth to eighth non-featured articles of the listing. */
  function SecondaryArticles(all: seq<Article>): (r: seq<Article>)
    ensures |r| == if LatestCount < |NonFeatured(all)| then Min(SecondaryEnd, |NonFeatured(all)|) - LatestCount else 0
    ensures |r| <= SecondaryEnd - LatestCount
    ensures forall i :: 0 <= i < |r| ==> !r[i].featured && r[i] == NonFeatured(all)[LatestCount + i]
  {
    Slice(NonFeatured(all), LatestCount, SecondaryEnd)
  }

  /** Latest then secondary is the first eight non-featured articles, so
      secondary ones appear only once the latest five are full. */
  lemma LatestThenSecondary(all: seq<Article>)
    ensures LatestArticles(all) + SecondaryArticles(all) == NonFeatured(all)[..Min(SecondaryEnd, |NonFeatured(all)|)]
    ensures |SecondaryArticles(all)| > 0 ==> |LatestArticles(all)| == LatestCount
  {
    var nf := NonFeatured(all);
    var both := LatestArticles(all) + SecondaryArticles(all);
    assert |both| == Min(SecondaryEnd, |nf|);
    forall i | 0 <= i < |both| ensures both[i] == nf[i] {
      if i >= |LatestArticles(all)| {
        assert both[i] == SecondaryArticles(all)[i - LatestCount];
      }
    }
  }

  /** On a newest-first listing both lists are newest first, every latest
      article is at least as new as every secondary one, and no
      non-featured article left out of the latest five is newer than one in
      it. */
  lemma LatestAreNewest(all: seq<Article>)
    requires SortedByDate(all)
    ensures SortedByDate(LatestArticles(all)) && SortedByDate(SecondaryArticles(all))
    ensures forall i, j :: 0 <= i < |LatestArticles(all)| && LatestCount <= j < |NonFeatured(all)| ==>
              LatestArticles(all)[i].date >= NonFeatured(all)[j].date
    ensures forall i, j :: 0 <= i < |LatestArticles(all)| && 0 <= j < |SecondaryArticles(all)| ==>
              LatestArticles(all)[i].date >= SecondaryArticles(all)[j].date
  {
    FilterSorted(all, NotFeatured());
  }

  /** When no article is listed twice, no article is both a latest and a
      secondary one. */
  lemma LatestSecondaryDisjoint(all: seq<Article>)
    requires Distinct(all)
    ensures forall i, j :: 0 <= i < |LatestArticles(all)| && 0 <= j < |SecondaryArticles(all)| ==>
              LatestArticles(all)[i] != SecondaryArticles(all)[j]
  {
    FilterDistinct(all, NotFeatured());
  }

  // ─── Topic highlights ───────────────────────────────────────────────────

  datatype Highlight = Highlight(topic: Topic, article: Article)

  /** The newest-listed non-featured article of the topic, if any. */
  function TopicLead(all: seq<Article>, topic: Topic): Option<Article> {
    Find(all, InTopicNotFeatured(topic.slug))
  }

  function HasLead(all: seq<Article>): Topic -> bool { (t: Topic) => TopicLead(all, t).Some? }

  function HighlightFor(all: seq<Article>): Topic -> Option<Highlight> {
    (t: Topic) => match TopicLead(all, t)
      case None => None
      case Some(a) => Some(Highlight(t, a))
  }

  /** Per topic in topic order, its lead article; topics without one are
      skipped and at most four are kept. */
  function TopicHighlights(topics: seq<Topic>, all: seq<Article>): (r: seq<Highlight>)
    ensures |r| <= HighlightCount
  {
    Slice(Somes(Map(topics, HighlightFor(all))), 0, HighlightCount)
  }

  /** The highlights are the first four topics that have a lead article,
      in topic order, each paired with that lead. */
  lemma TopicHighlightsSpec(topics: seq<Topic>, all: seq<Article>)
    ensures var r := TopicHighlights(topics, all);
            var shown := Filter(topics, HasLead(all));
      && |r| == Min(HighlightCount, |shown|)
      && forall i :: 0 <= i < |r| ==> r[i] == Highlight(shown[i], TopicLead(all, shown[i]).value)
  {
    SomesMap(topics, HighlightFor(all), HasLead(all));
  }

  /** A highlighted article is a non-featured article of its topic, and on a
      newest-first listing no non-featured article of that topic is newer. */
  lemma HighlightIsTopicLead(topics: seq<Topic>, all: seq<Article>, i: nat)
    requires i < |TopicHighlights(topics, all)|
    ensures var h := TopicHighlights(topics, all)[i];
      && h.topic in topics
      && h.article in all && h.article.topic == h.topic.slug && !h.article.featured
      && (SortedByDate(all) ==>
            forall b :: b in all && b.topic == h.topic.slug && !b.featured ==> h.article.date >= b.date)
  {
    TopicHighlightsSpec(topics, all);
    var shown := Filter(topics, HasLead(all));
    var h := TopicHighlights(topics, all)[i];
    FilterMember(topics, HasLead(all), shown[i]);
    var k :| 0 <= k < |all| && all[k] == h.article && InTopicNotFeatured(h.topic.slug)(all[k]) &&
             forall j :: 0 <= j < k ==> !InTopicNotFeatured(h.topic.slug)(all[j]);
    if SortedByDate(all) {
      forall b | b in all && b.topic == h.topic.slug && !b.featured
        ensures h.article.date >= b.date
      {
        var m :| 0 <= m < |all| && all[m] == b;
        assert InTopicNotFeatured(h.topic.slug)(all[m]);
      }
    }
  }

  /** A topic is left out of the highlights only when it has no
      non-featured article or four earlier topics already fill them. */
  lemma HighlightOmitted(topics: seq<Topic>, all: seq<Article>, t: Topic)
    requires t in topics && |Filter(topics, HasLead(all))| <= HighlightCount
    ensures (exists i :: 0 <= i < |TopicHighlights(topics, all)| && TopicHighlights(topics, all)[i].topic == t)
            <==> exists a :: a in all && a.topic == t.slug && !a.featured
  {
    TopicHighlightsSpec(topics, all);
    var shown := Filter(topics, HasLead(all));
    FilterMember(topics, HasLead(all), t);
    if exists a :: a in all && a.topic == t.slug && !a.featured {
      var a :| a in all && a.topic == t.slug && !a.featured;
      var m :| 0 <= m < |all| && all[m] == a;
      assert InTopicNotFeatured(t.slug)(all[m]);
      var i :| 0 <= i < |shown| && shown[i] == t;
      assert TopicHighlights(topics, all)[i].topic == t;
    }
    if exists i :: 0 <= i < |TopicHighlights(topics, all)| && TopicHighlights(topics, all)[i].topic == t {
      var i :| 0 <= i < |TopicHighlights(topics, all)| && TopicHighlights(topics, all)[i].topic == t;
      HighlightIsTopicLead(topics, all, i);
    }
  }

  // ─── Hero and sidebar ───────────────────────────────────────────────────

  /** The hero: the featured article with its author, shown only when both
      exist. */
  function Hero(store: Store): (r: Option<ArticleWithAuthor>)
    ensures r.None? <==>
      || GetFeaturedArticle(store).None?
      || GetWriterBySlug(store, GetFeaturedArticle(store).value.authorSlug).None?
    ensures r.Some? ==>
      && r.value.article == GetFeaturedArticle(store).value
      && r.value.article.featured
      && r.value.author.slug == r.value.article.authorSlug
      && r.value.author in store.writers
      && r.value.author == GetWriterBySlug(store, r.value.article.authorSlug).value
  {
    match GetFeaturedArticle(store)
    case None => None
    case Some(featured) =>
      match GetWriterBySlug(store, featured.authorSlug)
      case None => None
      case Some(author) => Some(ArticleWithAuthor(featured, author))
  }

  /** Up to three non-featured articles sharing the featured article's
      topic, in listing order. */
  function MoreInTopic(all: seq<Article>, featured: Article): (r: seq<Article>)
    ensures |r| == Min(SidebarCount, |Filter(all, InTopicNotFeatured(featured.topic))|)
    ensures forall i :: 0 <= i < |r| ==> r[i].topic == featured.topic && !r[i].featured
    ensures featured.featured ==> featured !in r
    ensures r <= Filter(all, InTopicNotFeatured(featured.topic))
  {
    Slice(Filter(all, InTopicNotFeatured(featured.topic)), 0, SidebarCount)
  }

  /** On a newest-first listing the sidebar is newest first and holds the
      newest such articles. */
  lemma MoreInTopicNewest(all: seq<Article>, featured: Article)
    requires SortedByDate(all)
    ensures SortedByDate(MoreInTopic(all, featured))
    ensures var same := Filter(all, InTopicNotFeatured(featured.topic));
      forall i, j :: 0 <= i < |MoreInTopic(all, featured)| && SidebarCount <= j < |same| ==>
        MoreInTopic(all, featured)[i].date >= same[j].date
  {
    FilterSorted(all, InTopicNotFeatured(featured.topic));
  }

  /** The card title, with the live marker in front for live coverage. */
  function DisplayTitle(a: Article): (r: string)
    ensures r == LivePrefix + a.title <==> a.isLive
    ensures !a.isLive ==> r == a.title
    ensures |r| >= |a.title| && r[|r| - |a.title|..] == a.title
  {
    if a.isLive then LivePrefix + a.title else a.title
  }

  // ─── The page ───────────────────────────────────────────────────────────

  datatype Home = Home(
    hero: Option<ArticleWithAuthor>,
    latest: seq<Article>,
    highlights: seq<Highlight>,
    secondary: seq<Article>,
    moreInTopic: seq<Article>)

  /** Everything the homepage selects, over the newest-first listing. */
  function BuildHome(store: Store): (h: Home)
    ensures h.hero == Hero(store)
    ensures h.latest == LatestArticles(SortByDate(store.articles))
    ensures h.highlights == TopicHighlights(store.topics, SortByDate(store.articles))
    ensures h.secondary == SecondaryArticles(SortByDate(store.articles))
    ensures h.hero.Some? ==> h.moreInTopic == MoreInTopic(SortByDate(store.articles), h.hero.value.article)
    ensures h.hero.None? ==> h.moreInTopic == []
  {
    var all := SortByDate(store.articles);
    var hero := Hero(store);
    Home(
      hero,
      LatestArticles(all),
      TopicHighlights(GetAllTopics(store), all),
      SecondaryArticles(all),
      if hero.Some? then MoreInTopic(all, hero.value.article) else [])
  }

  /** The three article lists of the page are newest first. */
  lemma HomeListsNewestFirst(store: Store)
    ensures var h := BuildHome(store);
      SortedByDate(h.latest) && SortedByDate(h.secondary) && SortedByDate(h.moreInTopic)
  {
    var all := SortByDate(store.articles);
    SortByDateSorted(store.articles);
    LatestAreNewest(all);
    if Hero(store).Some? {
      MoreInTopicNewest(all, Hero(store).value.article);
    }
  }

  /** Every article the page lists is a stored, non-featured one. */
  lemma HomeShowsStoredArticles(store: Store)
    ensures var h := BuildHome(store);
      forall a :: a in h.latest + h.secondary + h.moreInTopic ==> a in store.articles && !a.featured
  {
    var all := SortByDate(store.articles);
    var h := BuildHome(store);
    SortByDatePermutation(store.articles);
    forall a | a in h.latest + h.secondary + h.moreInTopic
      ensures a in store.articles && !a.featured
    {
      if a in h.latest || a in h.secondary {
        FilterMember(all, NotFeatured(), a);
      } else {
        FilterMember(all, InTopicNotFeatured(h.hero.value.article.topic), a);
      }
      assert a in multiset(all);
    }
  }

  /** When no article is stored twice, no article is both among the latest
      and among the secondary ones of the page. */
  lemma HomeLatestSecondaryDisjoint(store: Store)
    requires Distinct(store.articles)
    ensures var h := BuildHome(store);
      forall i, j :: 0 <= i < |h.latest| && 0 <= j < |h.secondary| ==> h.latest[i] != h.secondary[j]
  {
    SortByDateDistinct(store.articles);
    LatestSecondaryDisjoint(SortByDate(store.articles));
  }

  /** Every highlighted article is a stored one. */
  lemma HomeHighlightsStored(store: Store)
    ensures var h := BuildHome(store);
      forall i :: 0 <= i < |h.highlights| ==> h.highlights[i].article in store.articles
  {
    var all := SortByDate(store.articles);
    var h := BuildHome(store);
    SortByDatePermutation(store.articles);
    forall i | 0 <= i < |h.highlights|
      ensures h.highlights[i].article in store.articles
    {
      HighlightIsTopicLead(store.topics, all, i);
      assert h.highlights[i].article in multiset(all);
    }
  }
}
