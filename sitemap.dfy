/** The sitemap: the home and about pages, then one entry per article in
    newest-first order, one per topic and one per writer in source order.
    `now` is the build time stamped on entries that have no date of their
    own; priorities are in tenths. */
module Sitemap {
  import opened Types
  import opened Seqs
  import opened ArticleOrder
  import opened Seo
  import opened Data

  datatype ChangeFrequency = Daily | Weekly | Monthly | Yearly

  datatype Entry = Entry(url: string, lastModified: int, changeFrequency: ChangeFrequency, priority: nat)

  function HomeUrl(siteUrl: string): string { siteUrl + "/" }
  const AboutPath: string := "/about/"
  function AboutUrl(siteUrl: string): string { siteUrl + AboutPath }

  function ArticleEntry(siteUrl: string): Article -> Entry {
    (a: Article) => Entry(ArticleUrl(siteUrl, a.slug), a.date, Monthly, 8)
  }

  function TopicEntry(siteUrl: string, now: int): Topic -> Entry {
    (t: Topic) => Entry(TopicUrl(siteUrl, t.slug), now, Weekly, 7)
  }

  function WriterEntry(siteUrl: string, now: int): Writer -> Entry {
    (w: Writer) => Entry(WriterUrl(siteUrl, w.slug), now, Monthly, 6)
  }

  function UrlIs(url: string): Entry -> bool { (e: Entry) => e.url == url }

  /** The home and about entries, stamped with the build time. */
  function FixedEntries(siteUrl: string, now: int): seq<Entry> {
    [Entry(HomeUrl(siteUrl), now, Daily, 10), Entry(AboutUrl(siteUrl), now, Yearly, 5)]
  }

  function BuildSitemap(siteUrl: string, store: Store, now: int): (r: seq<Entry>)
    ensures |r| == 2 + |store.articles| + |store.topics| + |store.writers|
  {
    FixedEntries(siteUrl, now)
    + Map(SortByDate(store.articles), ArticleEntry(siteUrl))
    + Map(GetAllTopics(store), TopicEntry(siteUrl, now))
    + Map(GetAllWriters(store), WriterEntry(siteUrl, now))
  }

  /** The i-th article entry: the i-th article of the sorted listing. */
  lemma SitemapArticleAt(siteUrl: string, store: Store, now: int, i: nat)
    requires i < |store.articles|
    ensures var a := SortByDate(store.articles)[i];
      && BuildSitemap(siteUrl, store, now)[2 + i] == Entry(ArticleUrl(siteUrl, a.slug), a.date, Monthly, 8)
      && BuildSitemap(siteUrl, store, now)[2 + i].url == GenerateArticleMetadata(siteUrl, a, "").canonical
  {
    var ae := Map(SortByDate(store.articles), ArticleEntry(siteUrl));
    var rest := Map(store.topics, TopicEntry(siteUrl, now)) + Map(store.writers, WriterEntry(siteUrl, now));
    assert BuildSitemap(siteUrl, store, now) == FixedEntries(siteUrl, now) + ae + rest;
    assert (FixedEntries(siteUrl, now) + ae + rest)[2 + i] == ae[i];
  }

  /** The i-th topic entry: the i-th stored topic. */
  lemma SitemapTopicAt(siteUrl: string, store: Store, now: int, i: nat)
    requires i < |store.topics|
    ensures var t := store.topics[i];
      && BuildSitemap(siteUrl, store, now)[2 + |store.articles| + i] == Entry(TopicUrl(siteUrl, t.slug), now, Weekly, 7)
      && BuildSitemap(siteUrl, store, now)[2 + |store.articles| + i].url == GenerateTopicMetadata(siteUrl, t).canonical
  {
    var head := FixedEntries(siteUrl, now) + Map(SortByDate(store.articles), ArticleEntry(siteUrl));
    var te := Map(store.topics, TopicEntry(siteUrl, now));
    var we := Map(store.writers, WriterEntry(siteUrl, now));
    assert BuildSitemap(siteUrl, store, now) == head + te + we;
    assert (head + te + we)[|head| + i] == te[i];
  }

  /** The i-th writer entry: the i-th stored writer. */
  lemma SitemapWriterAt(siteUrl: string, store: Store, now: int, i: nat)
    requires i < |store.writers|
    ensures var w := store.writers[i];
            var k := 2 + |store.articles| + |store.topics| + i;
      && BuildSitemap(siteUrl, store, now)[k] == Entry(WriterUrl(siteUrl, w.slug), now, Monthly, 6)
      && BuildSitemap(siteUrl, store, now)[k].url == GenerateWriterMetadata(siteUrl, w).canonical
  {
    var head := FixedEntries(siteUrl, now) + Map(SortByDate(store.articles), ArticleEntry(siteUrl))
                + Map(store.topics, TopicEntry(siteUrl, now));
    var we := Map(store.writers, WriterEntry(siteUrl, now));
    assert BuildSitemap(siteUrl, store, now) == head + we;
    assert (head + we)[|head| + i] == we[i];
  }

  /** Entry by entry: home, about, the articles newest first, the topics,
      the writers, each with its fixed frequency and priority, and each URL
      the canonical URL of that page's metadata. */
  lemma SitemapLayout(siteUrl: string, store: Store, now: int)
    ensures var r := BuildSitemap(siteUrl, store, now);
            var articles := SortByDate(store.articles);
            var na := |articles|;
            var nt := |store.topics|;
      && r[0] == Entry(HomeUrl(siteUrl), now, Daily, 10)
      && r[1] == Entry(AboutUrl(siteUrl), now, Yearly, 5)
      && (forall i :: 0 <= i < na ==>
            && r[2 + i] == Entry(ArticleUrl(siteUrl, articles[i].slug), articles[i].date, Monthly, 8)
            && r[2 + i].url == GenerateArticleMetadata(siteUrl, articles[i], "").canonical)
      && (forall i :: 0 <= i < nt ==>
            && r[2 + na + i] == Entry(TopicUrl(siteUrl, store.topics[i].slug), now, Weekly, 7)
            && r[2 + na + i].url == GenerateTopicMetadata(siteUrl, store.topics[i]).canonical)
      && (forall i :: 0 <= i < |store.writers| ==>
            && r[2 + na + nt + i] == Entry(WriterUrl(siteUrl, store.writers[i].slug), now, Monthly, 6)
            && r[2 + na + nt + i].url == GenerateWriterMetadata(siteUrl, store.writers[i]).canonical)
  {
    forall i | 0 <= i < |store.articles| { SitemapArticleAt(siteUrl, store, now, i); }
    forall i | 0 <= i < |store.topics| { SitemapTopicAt(siteUrl, store, now, i); }
    forall i | 0 <= i < |store.writers| { SitemapWriterAt(siteUrl, store, now, i); }
  }

  /** The article entries are in the order of the sorted article list. */
  lemma SitemapArticlesNewestFirst(siteUrl: string, store: Store, now: int, i: nat, j: nat)
    requires i <= j < |store.articles|
    ensures BuildSitemap(siteUrl, store, now)[2 + i].lastModified >= BuildSitemap(siteUrl, store, now)[2 + j].lastModified
  {
    SortByDateSorted(store.articles);
    SitemapArticleAt(siteUrl, store, now, i);
    SitemapArticleAt(siteUrl, store, now, j);
  }

  /** Every URL in the sitemap ends in a slash. */
  lemma SitemapUrlsEndInSlash(siteUrl: string, store: Store, now: int)
    ensures var r := BuildSitemap(siteUrl, store, now);
      forall i :: 0 <= i < |r| ==> |r[i].url| > 0 && r[i].url[|r[i].url| - 1] == '/'
  {
    var r := BuildSitemap(siteUrl, store, now);
    forall i | 0 <= i < |r|
      ensures |r[i].url| > 0 && r[i].url[|r[i].url| - 1] == '/'
    {
      var na := |store.articles|;
      var nt := |store.topics|;
      if i < 2 {
        assert r[..2] == FixedEntries(siteUrl, now);
        assert r[i] == FixedEntries(siteUrl, now)[i];
      } else if i < 2 + na {
        SitemapArticleAt(siteUrl, store, now, i - 2);
        PageUrlShape(siteUrl, ArticlesPath, SortByDate(store.articles)[i - 2].slug);
      } else if i < 2 + na + nt {
        SitemapTopicAt(siteUrl, store, now, i - 2 - na);
        PageUrlShape(siteUrl, TopicsPath, store.topics[i - 2 - na].slug);
      } else {
        SitemapWriterAt(siteUrl, store, now, i - 2 - na - nt);
        PageUrlShape(siteUrl, WritersPath, store.writers[i - 2 - na - nt].slug);
      }
    }
  }

  /** The home and about URLs are not the URL of any article, topic or
      writer page. */
  lemma FixedPagesDiffer(siteUrl: string, path: string, slug: string)
    requires path == ArticlesPath || path == TopicsPath || path == WritersPath
    ensures PageUrl(siteUrl, path, slug) != HomeUrl(siteUrl)
    ensures PageUrl(siteUrl, path, slug) != AboutUrl(siteUrl)
  {
    PageUrlShape(siteUrl, path, slug);
    var url := PageUrl(siteUrl, path, slug);
    var about := AboutUrl(siteUrl);
    assert about[|siteUrl| + 1] == AboutPath[1];
    assert about[|siteUrl| + 2] == AboutPath[2];
    assert url[|siteUrl| + 1] == path[1];
    assert url[|siteUrl| + 2] == path[2];
  }

  lemma FixedEntriesCount(siteUrl: string, now: int, path: string, slug: string)
    requires path == ArticlesPath || path == TopicsPath || path == WritersPath
    ensures Filter(FixedEntries(siteUrl, now), UrlIs(PageUrl(siteUrl, path, slug))) == []
  {
    FixedPagesDiffer(siteUrl, path, slug);
    var fixed := FixedEntries(siteUrl, now);
    assert fixed[1..] == [fixed[1]];
  }

  /** Entries for a different kind of page hold none with this URL. */
  lemma OtherKindNone<T>(s: seq<T>, f: T -> Entry, url: string)
    requires forall x :: f(x).url != url
    ensures Filter(Map(s, f), UrlIs(url)) == []
  {
    FilterMap(s, f, UrlIs(url), (x: T) => false);
    FilterNone(s, (x: T) => false);
  }

  /** Each stored article is listed as often as its slug is stored: with
      unique slugs, exactly once. */
  lemma {:induction false} ArticleEntriesCount(siteUrl: string, store: Store, now: int, slug: string)
    ensures |Filter(BuildSitemap(siteUrl, store, now), UrlIs(ArticleUrl(siteUrl, slug)))| ==
            |Filter(store.articles, ArticleSlugIs(slug))|
  {
    var url := ArticleUrl(siteUrl, slug);
    var fixed := FixedEntries(siteUrl, now);
    var ae := Map(SortByDate(store.articles), ArticleEntry(siteUrl));
    var te := Map(store.topics, TopicEntry(siteUrl, now));
    var we := Map(store.writers, WriterEntry(siteUrl, now));
    FilterConcat(fixed + ae + te, we, UrlIs(url));
    FilterConcat(fixed + ae, te, UrlIs(url));
    FilterConcat(fixed, ae, UrlIs(url));
    FixedEntriesCount(siteUrl, now, ArticlesPath, slug);
    forall a: Article ensures UrlIs(url)(ArticleEntry(siteUrl)(a)) == ArticleSlugIs(slug)(a) {
      CanonicalUrlsDistinct(siteUrl, a.slug, slug);
    }
    FilterMap(SortByDate(store.articles), ArticleEntry(siteUrl), UrlIs(url), ArticleSlugIs(slug));
    SortFilterCommute(store.articles, ArticleSlugIs(slug));
    forall t: Topic ensures TopicEntry(siteUrl, now)(t).url != url {
      CanonicalUrlsDistinct(siteUrl, slug, t.slug);
    }
    OtherKindNone(store.topics, TopicEntry(siteUrl, now), url);
    forall w: Writer ensures WriterEntry(siteUrl, now)(w).url != url {
      CanonicalUrlsDistinct(siteUrl, slug, w.slug);
    }
    OtherKindNone(store.writers, WriterEntry(siteUrl, now), url);
  }

  /** Each stored topic is listed as often as its slug is stored. */
  lemma {:induction false} TopicEntriesCount(siteUrl: string, store: Store, now: int, slug: string)
    ensures |Filter(BuildSitemap(siteUrl, store, now), UrlIs(TopicUrl(siteUrl, slug)))| ==
            |Filter(store.topics, TopicSlugIs(slug))|
  {
    var url := TopicUrl(siteUrl, slug);
    var fixed := FixedEntries(siteUrl, now);
    var ae := Map(SortByDate(store.articles), ArticleEntry(siteUrl));
    var te := Map(store.topics, TopicEntry(siteUrl, now));
    var we := Map(store.writers, WriterEntry(siteUrl, now));
    FilterConcat(fixed + ae + te, we, UrlIs(url));
    FilterConcat(fixed + ae, te, UrlIs(url));
    FilterConcat(fixed, ae, UrlIs(url));
    FixedEntriesCount(siteUrl, now, TopicsPath, slug);
    forall a: Article ensures ArticleEntry(siteUrl)(a).url != url {
      CanonicalUrlsDistinct(siteUrl, a.slug, slug);
    }
    OtherKindNone(SortByDate(store.articles), ArticleEntry(siteUrl), url);
    forall t: Topic ensures UrlIs(url)(TopicEntry(siteUrl, now)(t)) == TopicSlugIs(slug)(t) {
      CanonicalUrlsDistinct(siteUrl, t.slug, slug);
    }
    FilterMap(store.topics, TopicEntry(siteUrl, now), UrlIs(url), TopicSlugIs(slug));
    forall w: Writer ensures WriterEntry(siteUrl, now)(w).url != url {
      CanonicalUrlsDistinct(siteUrl, slug, w.slug);
    }
    OtherKindNone(store.writers, WriterEntry(siteUrl, now), url);
  }

  /** Each stored writer is listed as often as its slug is stored. */
  lemma {:induction false} WriterEntriesCount(siteUrl: string, store: Store, now: int, slug: string)
    ensures |Filter(BuildSitemap(siteUrl, store, now), UrlIs(WriterUrl(siteUrl, slug)))| ==
            |Filter(store.writers, WriterSlugIs(slug))|
  {
    var url := WriterUrl(siteUrl, slug);
    var fixed := FixedEntries(siteUrl, now);
    var ae := Map(SortByDate(store.articles), ArticleEntry(siteUrl));
    var te := Map(store.topics, TopicEntry(siteUrl, now));
    var we := Map(store.writers, WriterEntry(siteUrl, now));
    FilterConcat(fixed + ae + te, we, UrlIs(url));
    FilterConcat(fixed + ae, te, UrlIs(url));
    FilterConcat(fixed, ae, UrlIs(url));
    FixedEntriesCount(siteUrl, now, WritersPath, slug);
    forall a: Article ensures ArticleEntry(siteUrl)(a).url != url {
      CanonicalUrlsDistinct(siteUrl, a.slug, slug);
    }
    OtherKindNone(SortByDate(store.articles), ArticleEntry(siteUrl), url);
    forall t: Topic ensures TopicEntry(siteUrl, now)(t).url != url {
      CanonicalUrlsDistinct(siteUrl, t.slug, slug);
    }
    OtherKindNone(store.topics, TopicEntry(siteUrl, now), url);
    forall w: Writer ensures UrlIs(url)(WriterEntry(siteUrl, now)(w)) == WriterSlugIs(slug)(w) {
      CanonicalUrlsDistinct(siteUrl, w.slug, slug);
    }
    FilterMap(store.writers, WriterEntry(siteUrl, now), UrlIs(url), WriterSlugIs(slug));
  }

  /** No stored article, topic or writer is left out of the sitemap. */
  lemma StoredPagesListed(siteUrl: string, store: Store, now: int)
    ensures var r := BuildSitemap(siteUrl, store, now);
      && (forall a :: a in store.articles ==> |Filter(r, UrlIs(ArticleUrl(siteUrl, a.slug)))| >= 1)
      && (forall t :: t in store.topics ==> |Filter(r, UrlIs(TopicUrl(siteUrl, t.slug)))| >= 1)
      && (forall w :: w in store.writers ==> |Filter(r, UrlIs(WriterUrl(siteUrl, w.slug)))| >= 1)
  {
    forall a | a in store.articles
      ensures |Filter(BuildSitemap(siteUrl, store, now), UrlIs(ArticleUrl(siteUrl, a.slug)))| >= 1
    {
      ArticleEntriesCount(siteUrl, store, now, a.slug);
      FilterMember(store.articles, ArticleSlugIs(a.slug), a);
    }
    forall t | t in store.topics
      ensures |Filter(BuildSitemap(siteUrl, store, now), UrlIs(TopicUrl(siteUrl, t.slug)))| >= 1
    {
      TopicEntriesCount(siteUrl, store, now, t.slug);
      FilterMember(store.topics, TopicSlugIs(t.slug), t);
    }
    forall w | w in store.writers
      ensures |Filter(BuildSitemap(siteUrl, store, now), UrlIs(WriterUrl(siteUrl, w.slug)))| >= 1
    {
      WriterEntriesCount(siteUrl, store, now, w.slug);
      FilterMember(store.writers, WriterSlugIs(w.slug), w);
    }
  }
}
