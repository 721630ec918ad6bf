/** Search-engine metadata for the three kinds of page: canonical URLs
    with a trailing slash, the Open Graph image fallback, the title and
    description fields, and the schema.org `NewsArticle` record embedded in
    article pages. The site's base URL is a parameter (`siteUrl`). */
module Seo {
  import opened Types

  const SiteName: string := "The Commoner"
  const Locale: string := "en_US"
  const TwitterCard: string := "summary_large_image"
  const OgImageWidth: nat := 1200
  const OgImageHeight: nat := 630
  /** Writer descriptions are cut to this many characters. */
  const BioLimit: nat := 160

  const ArticlesPath: string := "/articles/"
  const TopicsPath: string := "/topics/"
  const WritersPath: string := "/writers/"

  function DefaultOgImage(siteUrl: string): string { siteUrl + "/images/og-default.jpg" }
  function LogoUrl(siteUrl: string): string { siteUrl + "/images/logo.png" }

  // ─── Canonical URLs ─────────────────────────────────────────────────────

  /** `${siteUrl}${path}${slug}/` */
  function PageUrl(siteUrl: string, path: string, slug: string): string {
    siteUrl + path + slug + "/"
  }

  function ArticleUrl(siteUrl: string, slug: string): string { PageUrl(siteUrl, ArticlesPath, slug) }
  function TopicUrl(siteUrl: string, slug: string): string { PageUrl(siteUrl, TopicsPath, slug) }
  function WriterUrl(siteUrl: string, slug: string): string { PageUrl(siteUrl, WritersPath, slug) }

  /** A page URL starts with the site URL and the section path, ends in a
      slash, and holds the slug between the two. */
  lemma PageUrlShape(siteUrl: string, path: string, slug: string)
    ensures var url := PageUrl(siteUrl, path, slug);
      && |url| == |siteUrl| + |path| + |slug| + 1
      && url[..|siteUrl|] == siteUrl
      && url[|siteUrl|..|siteUrl| + |path|] == path
      && url[|siteUrl| + |path|..|url| - 1] == slug
      && url[|url| - 1] == '/'
  {
    var url := PageUrl(siteUrl, path, slug);
    assert url == siteUrl + (path + (slug + "/"));
  }

  /** Within one section, different slugs give different URLs. */
  lemma PageUrlInjective(siteUrl: string, path: string, s1: string, s2: string)
    requires PageUrl(siteUrl, path, s1) == PageUrl(siteUrl, path, s2)
    ensures s1 == s2
  {
    PageUrlShape(siteUrl, path, s1);
    PageUrlShape(siteUrl, path, s2);
  }

  /** URLs of sections whose paths differ at some position never coincide,
      whatever the slugs. */
  lemma PageUrlSectionsDiffer(siteUrl: string, p1: string, p2: string, s1: string, s2: string, k: nat)
    requires k < |p1| && k < |p2| && p1[k] != p2[k]
    ensures PageUrl(siteUrl, p1, s1) != PageUrl(siteUrl, p2, s2)
  {
    PageUrlShape(siteUrl, p1, s1);
    PageUrlShape(siteUrl, p2, s2);
    assert PageUrl(siteUrl, p1, s1)[|siteUrl| + k] == p1[k];
    assert PageUrl(siteUrl, p2, s2)[|siteUrl| + k] == p2[k];
  }

  /** Article, topic and writer pages never share a URL, and each kind's
      URL determines its slug. */
  lemma CanonicalUrlsDistinct(siteUrl: string, s1: string, s2: string)
    ensures ArticleUrl(siteUrl, s1) == ArticleUrl(siteUrl, s2) <==> s1 == s2
    ensures TopicUrl(siteUrl, s1) == TopicUrl(siteUrl, s2) <==> s1 == s2
    ensures WriterUrl(siteUrl, s1) == WriterUrl(siteUrl, s2) <==> s1 == s2
    ensures ArticleUrl(siteUrl, s1) != TopicUrl(siteUrl, s2)
    ensures ArticleUrl(siteUrl, s1) != WriterUrl(siteUrl, s2)
    ensures TopicUrl(siteUrl, s1) != WriterUrl(siteUrl, s2)
  {
    if ArticleUrl(siteUrl, s1) == ArticleUrl(siteUrl, s2) { PageUrlInjective(siteUrl, ArticlesPath, s1, s2); }
    if TopicUrl(siteUrl, s1) == TopicUrl(siteUrl, s2) { PageUrlInjective(siteUrl, TopicsPath, s1, s2); }
    if WriterUrl(siteUrl, s1) == WriterUrl(siteUrl, s2) { PageUrlInjective(siteUrl, WritersPath, s1, s2); }
    PageUrlSectionsDiffer(siteUrl, ArticlesPath, TopicsPath, s1, s2, 1);
    PageUrlSectionsDiffer(siteUrl, ArticlesPath, WritersPath, s1, s2, 1);
    PageUrlSectionsDiffer(siteUrl, TopicsPath, WritersPath, s1, s2, 1);
  }

  // ─── Metadata records ───────────────────────────────────────────────────

  datatype OgType = OgArticle | OgWebsite | OgProfile

  datatype OgImage = OgImage(url: string, width: nat, height: nat, alt: string)

  /** The `openGraph` block; the optional fields are set for articles only.
      `publishedTime` is the article timestamp before ISO formatting. */
  datatype OpenGraph = OpenGraph(
    ogType: OgType,
    url: string,
    title: string,
    description: string,
    siteName: string,
    locale: Option<string>,
    publishedTime: Option<int>,
    authors: Option<seq<string>>,
    section: Option<string>,
    images: seq<OgImage>)

  datatype Twitter = Twitter(card: string, title: string, description: string, images: seq<string>)

  /** A page's metadata; `authors` lists author names and is absent where
      the page inherits the site-wide default. */
  datatype Metadata = Metadata(
    title: string,
    description: string,
    authors: Option<seq<string>>,
    openGraph: OpenGraph,
    twitter: Option<Twitter>,
    canonical: string)

  /** The article's image under the site URL, or the site default when the
      article has none. */
  function ArticleImageUrl(siteUrl: string, image: string): (r: string)
    ensures image != "" ==> r == siteUrl + image
    ensures image == "" ==> r == DefaultOgImage(siteUrl)
    ensures r[..|siteUrl|] == siteUrl
  {
    if image != "" then siteUrl + image else DefaultOgImage(siteUrl)
  }

  /** Metadata of an article page: one canonical URL for the Open Graph
      URL and the canonical link, one image for Open Graph and Twitter, and
      the title and excerpt repeated in all three places. */
  function GenerateArticleMetadata(siteUrl: string, article: Article, authorName: string): (m: Metadata)
    ensures m.canonical == m.openGraph.url == ArticleUrl(siteUrl, article.slug)
    ensures m.title == m.openGraph.title == article.title
    ensures m.description == m.openGraph.description == article.excerpt
    ensures m.twitter.Some? && m.twitter.value.title == article.title &&
            m.twitter.value.description == article.excerpt
    ensures m.openGraph.images == [OgImage(ArticleImageUrl(siteUrl, article.image), OgImageWidth, OgImageHeight, article.title)]
    ensures m.twitter.value.images == [m.openGraph.images[0].url]
    ensures m.authors == m.openGraph.authors == Some([authorName])
    ensures m.openGraph.ogType == OgArticle && m.openGraph.siteName == SiteName
    ensures m.openGraph.locale == Some(Locale) && m.twitter.value.card == TwitterCard
    ensures m.openGraph.publishedTime == Some(article.date) && m.openGraph.section == Some(article.topic)
  {
    var url := ArticleUrl(siteUrl, article.slug);
    var ogImage := ArticleImageUrl(siteUrl, article.image);
    Metadata(
      article.title,
      article.excerpt,
      Some([authorName]),
      OpenGraph(OgArticle, url, article.title, article.excerpt, SiteName, Some(Locale),
                Some(article.date), Some([authorName]), Some(article.topic),
                [OgImage(ogImage, OgImageWidth, OgImageHeight, article.title)]),
      Some(Twitter(TwitterCard, article.title, article.excerpt, [ogImage])),
      url)
  }

  /** Metadata of a topic page; the Open Graph title carries the site
      name. */
  function GenerateTopicMetadata(siteUrl: string, topic: Topic): (m: Metadata)
    ensures m.canonical == m.openGraph.url == TopicUrl(siteUrl, topic.slug)
    ensures m.title == topic.name
    ensures m.openGraph.title == topic.name + " | " + SiteName
    ensures m.description == m.openGraph.description == topic.description
    ensures m.openGraph.ogType == OgWebsite && m.authors.None? && m.twitter.None?
  {
    var url := TopicUrl(siteUrl, topic.slug);
    Metadata(
      topic.name,
      topic.description,
      None,
      OpenGraph(OgWebsite, url, topic.name + " | " + SiteName, topic.description, SiteName,
                None, None, None, None, []),
      None,
      url)
  }

  /** `s.substring(0, n)` for a non-negative `n`. */
  function Truncate(s: string, n: nat): (r: string)
    ensures |r| == if |s| <= n then |s| else n
    ensures r <= s
    ensures r == s <==> |s| <= n
  {
    if |s| <= n then s else s[..n]
  }

  /** Metadata of a writer page; the description is the bio cut to its
      first 160 characters. */
  function GenerateWriterMetadata(siteUrl: string, writer: Writer): (m: Metadata)
    ensures m.canonical == m.openGraph.url == WriterUrl(siteUrl, writer.slug)
    ensures m.title == writer.name
    ensures m.openGraph.title == writer.name + " | " + SiteName
    ensures m.description == m.openGraph.description == Truncate(writer.bio, BioLimit)
    ensures m.description <= writer.bio && |m.description| <= BioLimit
    ensures m.description == writer.bio <==> |writer.bio| <= BioLimit
    ensures m.openGraph.ogType == OgProfile && m.authors.None? && m.twitter.None?
  {
    var url := WriterUrl(siteUrl, writer.slug);
    var description := Truncate(writer.bio, BioLimit);
    Metadata(
      writer.name,
      description,
      None,
      OpenGraph(OgProfile, url, writer.name + " | " + SiteName, description, SiteName,
                None, None, None, None, []),
      None,
      url)
  }

  // ─── Structured data ────────────────────────────────────────────────────

  datatype PersonLd = PersonLd(name: string, url: string)
  datatype OrganizationLd = OrganizationLd(name: string, logoUrl: string)

  /** The schema.org `NewsArticle` record before serialisation;
      `mainEntityOfPage` holds the web page's `@id`, and both dates are the
      article timestamp before ISO formatting. */
  datatype NewsArticleLd = NewsArticleLd(
    context: string,
    schemaType: string,
    headline: string,
    description: string,
    datePublished: int,
    dateModified: int,
    author: PersonLd,
    publisher: OrganizationLd,
    mainEntityOfPage: string,
    image: string,
    articleSection: string)

  function GenerateArticleJsonLd(siteUrl: string, article: Article, authorName: string): (ld: NewsArticleLd)
    ensures ld.datePublished == ld.dateModified == article.date
    ensures ld.mainEntityOfPage == ArticleUrl(siteUrl, article.slug)
    ensures ld.author == PersonLd(authorName, WriterUrl(siteUrl, article.authorSlug))
    ensures ld.publisher == OrganizationLd(SiteName, LogoUrl(siteUrl))
    ensures ld.image == ArticleImageUrl(siteUrl, article.image)
    ensures ld.headline == article.title && ld.description == article.excerpt
    ensures ld.articleSection == article.topic
    ensures ld.context == "https://schema.org" && ld.schemaType == "NewsArticle"
  {
    var image := if article.image != "" then siteUrl + article.image else DefaultOgImage(siteUrl);
    NewsArticleLd(
      "https://schema.org",
      "NewsArticle",
      article.title,
      article.excerpt,
      article.date,
      article.date,
      PersonLd(authorName, siteUrl + WritersPath + article.authorSlug + "/"),
      OrganizationLd(SiteName, LogoUrl(siteUrl)),
      siteUrl + ArticlesPath + article.slug + "/",
      image,
      article.topic)
  }

  /** The structured data agrees with the page metadata: same page, same
      image, same headline, description, section and date, and the author
      link is the author's own canonical page. */
  lemma JsonLdMatchesMetadata(siteUrl: string, article: Article, author: Writer)
    requires author.slug == article.authorSlug
    ensures var ld := GenerateArticleJsonLd(siteUrl, article, author.name);
            var m := GenerateArticleMetadata(siteUrl, article, author.name);
      && ld.mainEntityOfPage == m.canonical
      && ld.image == m.openGraph.images[0].url == m.twitter.value.images[0]
      && ld.headline == m.title && ld.description == m.description
      && Some(ld.articleSection) == m.openGraph.section
      && Some(ld.datePublished) == m.openGraph.publishedTime
      && Some([ld.author.name]) == m.authors
      && ld.author.url == GenerateWriterMetadata(siteUrl, author).canonical
  {
  }
}
