# The Commoner: content queries, SEO metadata, sitemap and homepage selection

The Commoner is a statically generated news site. Its content layer holds
three collections: articles, writers and topics. The rest of the site reads
them through a set of query functions. This project models that layer and
the code that derives URLs, metadata, the sitemap and the homepage lists
from it, and proves properties of the model.

- **Data access** (`data.dfy`, `article_order.dfy`, `slug_text.dfy`)
  - `GetAllArticles` copies the stored articles into a fresh array and sorts the copy newest first, in place, by a stable insertion sort (`ArticleOrder.SortInPlace`). It is proved equal to the functional sort `ArticleOrder.SortByDate`.
  - `SortByDate` is proved sorted, a permutation of its input, and stable.
  - Slug lookups return the first match.
  - The topic and author listings filter the sorted list. They are proved equal to the sorted listing of the filtered source.
  - The article/author join fails when either side is missing.
  - The topic display name falls back to a label built from the slug. That split–capitalise–join pipeline is proved equal to a character-by-character reference definition (`SlugText.TitleCase`).
  - `GetAllWriters` and `GetAllTopics` return the stored lists in source order, as they are.
- **SEO metadata** (`seo.dfy`)
  - Canonical URLs with a trailing slash.
  - The Open Graph image fallback.
  - Article, topic and writer metadata records.
  - The schema.org `NewsArticle` record, before serialisation.
  - Writer descriptions cut to 160 characters.
- **Sitemap** (`sitemap.dfy`): the home and about entries, then one entry per article (newest first), per topic and per writer.
- **Homepage selection** (`home_page.dfy`)
  - The featured hero.
  - The latest five and the secondary three non-featured articles.
  - One highlight per topic, at most four.
  - The "more in this topic" sidebar.
  - The "Live: " title prefix.

## Modelling choices

- The store is a value, `Types.Store`. The site base URL (`siteUrl`) and the build clock (`now`) are parameters.
- An article date is an integer timestamp: the value `new Date(date).getTime()` gives.
- The optional `isLive` flag is a `bool`; an absent flag is `false`.
- Sitemap priorities are in tenths: 10 = 1.0, 8 = 0.8, and so on.
- `ArticleWithAuthor` pairs the article with its author. The source spreads the article's fields into a new object instead; the information is the same.
- The source sorts with the TypeScript array sort (stable) and the comparator `b.date - a.date`. The model puts each article after every article at least as new as it. For every pair of articles, that is the order the comparator plus stability gives.
- The en-dash count in the topic fallback label equals the number of hyphens plus the number of en-dashes already in the slug. It equals the number of hyphens alone only for a slug without en-dashes, which is what the code does.
- The metadata generators in `lib/seo.ts` take an entity that is present. Handling a missing entity happens in the page files, which are not part of this model.
- The article listings do not leave out articles whose author is missing: `getArticlesByTopic` and `getArticlesByAuthor` keep every article of the topic or author. The homepage skips such articles only while it renders each card.

## Model

| member | source | states |
|---|---|---|
| ArticleOrder.SortByDateSorted | lib/data.ts:19-21 | in the sorted listing, dates never increase from left to right |
| ArticleOrder.SortByDatePermutation | lib/data.ts:19-21 | the sorted listing holds exactly the source articles, each as often as in the source |
| ArticleOrder.InsertDistinct | lib/data.ts:19-21 | inserting an article not yet in a duplicate-free list keeps it duplicate-free |
| ArticleOrder.SortByDateDistinct | lib/data.ts:19-21 | sorting a list in which no article occurs twice gives a list in which none occurs twice |
| ArticleOrder.SortByDateStable | lib/data.ts:19-21 | the articles of any one date appear in the sorted listing in their source order |
| ArticleOrder.SortFilterCommute | lib/data.ts:32-38 | filtering the sorted listing by any predicate gives the sorted listing of the filtered source |
| ArticleOrder.FilterSorted | lib/data.ts:33 | any filtered subsequence of a newest-first listing is newest first |
| ArticleOrder.FilterInsert | lib/data.ts:33 | filtering commutes with inserting an article into a sorted list |
| ArticleOrder.InsertSorted | lib/data.ts:19-21 | inserting an article into a sorted list keeps it sorted |
| ArticleOrder.InsertMultiset | lib/data.ts:19-21 | an insertion adds exactly the inserted article |
| ArticleOrder.ShiftOlder | lib/data.ts:19-21 | the inner loop of the in-place sort moves the trailing run of articles older than `x` one place right, leaves every other cell (the run's starting cell included) as it was, and stops after an article at least as new as `x` |
| ArticleOrder.InsertLast | lib/data.ts:19-21 | one insertion step leaves the prefix equal to `Insert` of the old prefix and the old element, and the rest of the array unchanged |
| ArticleOrder.SortInPlace | lib/data.ts:19-21 | the in-place insertion sort leaves the array equal to `SortByDate` of its old contents |
| Data.GetAllArticles | lib/data.ts:18-22 | the result is `SortByDate` of the stored articles: newest first and a permutation of them; only a fresh copy is sorted |
| Data.GetArticleBySlug | lib/data.ts:24-26 | absent exactly when no stored article has the slug; otherwise the first stored article that has it |
| Data.StoredSlugsResolve | lib/data.ts:24-26 | every stored article's slug resolves to an article with that slug |
| Data.UniqueSlugLookup | lib/data.ts:24-26 | when slugs are unique, the lookup returns the one article with that slug |
| Data.GetFeaturedArticle | lib/data.ts:28-30 | absent exactly when no article is featured; otherwise the first featured article in source order, not date order |
| Data.FirstFeaturedWins | lib/data.ts:28-30 | with two featured articles, the first in source order wins even when the second is newer |
| Data.TwoArticleScenario | lib/data.ts:18-30 | an older unfeatured "a" and a newer featured "b" sort as [b, a], and "b" is the featured article |
| Data.GetArticlesByTopic | lib/data.ts:32-34 | every listed article has the topic |
| Data.ArticlesByTopicSpec | lib/data.ts:32-34 | the topic listing is the sorted listing of the topic's source articles: newest first, stable, and holding each of them |
| Data.TopicListingMember | lib/data.ts:32-34 | an article is in a topic's listing if and only if it is stored with that topic |
| Data.TopicListingsPartition | lib/data.ts:32-34 | each stored article is in its own topic's listing and in no other topic's listing |
| Data.GetArticlesByAuthor | lib/data.ts:36-38 | every listed article has the author |
| Data.ArticlesByAuthorSpec | lib/data.ts:36-38 | the author listing is the sorted listing of the author's source articles |
| Data.AuthorListingMember | lib/data.ts:36-38 | an article is in an author's listing if and only if it is stored with that author |
| Data.GetArticleWithAuthor | lib/data.ts:40-48 | absent exactly when the article is missing or its author does not resolve; otherwise the article with that slug together with the first stored writer whose slug is the article's author slug, the writer `getWriterBySlug` returns |
| Data.DanglingAuthorNotFound | lib/data.ts:40-45 | an article whose author slug matches no writer is not returned by the join |
| Data.GetAllWriters | lib/data.ts:52-54 | the stored writers, unchanged and in source order |
| Data.GetAllTopics | lib/data.ts:62-64 | the stored topics, unchanged and in source order |
| Data.ListedWritersResolve | lib/data.ts:52-58 | every listed writer resolves by its slug to a writer with that slug |
| Data.ListedTopicsResolve | lib/data.ts:62-68 | every listed topic resolves by its slug, and its label is then a stored topic's name |
| Data.GetWriterBySlug | lib/data.ts:56-58 | absent exactly when no writer has the slug; otherwise the first writer that has it |
| Data.GetTopicBySlug | lib/data.ts:66-68 | absent exactly when no topic has the slug; otherwise the first topic that has it |
| Data.GetTopicName | lib/data.ts:81-89 | a known slug gives the topic's name; an unknown slug gives the reference label: same length, no hyphen left, and one en-dash per hyphen or en-dash of the slug |
| Data.UnknownTopicLabel | lib/data.ts:81-89 | when no stored topic has the slug, "unlisted-topic-slug" is labelled "Unlisted–Topic–Slug" |
| SlugText.Split | lib/data.ts:86 | `split('-')` gives at least one segment, and no segment contains the separator |
| SlugText.SplitCount | lib/data.ts:86 | a slug with n hyphens has n + 1 segments |
| SlugText.JoinSplit | lib/data.ts:86-88 | joining the segments with the separator gives back the slug |
| SlugText.Capitalize | lib/data.ts:87 | capitalising a segment keeps its length |
| SlugText.FallbackIsTitleCase | lib/data.ts:85-88 | the split–capitalise–join label equals the character-by-character reference label |
| SlugText.TitleCaseAt | lib/data.ts:85-88 | character i of the label: an en-dash where the slug has a hyphen, upper-cased at the start of each segment, unchanged elsewhere |
| SlugText.TitleCaseCounts | lib/data.ts:85-88 | the label has no hyphen, and its en-dashes are the slug's hyphens plus its en-dashes |
| SlugText.TitleCaseSegmentThen | lib/data.ts:85-88 | a segment, a hyphen and the rest become the capitalised segment, an en-dash and the label of the rest |
| Seo.PageUrlShape | lib/seo.ts:63 | a page URL is the site URL, then the section path, then the slug, then a final slash |
| Seo.PageUrlInjective | lib/seo.ts:63 | within one section, equal URLs have equal slugs |
| Seo.CanonicalUrlsDistinct | lib/seo.ts:63-156 | article, topic and writer URLs (lines 63, 112, 124, 138, 156) are equal exactly when their slugs are, and URLs of different kinds never coincide |
| Seo.ArticleImageUrl | lib/seo.ts:64-66 | a non-empty image gives the site URL followed by the image path; an empty one gives the default image; either way the result starts with the site URL |
| Seo.GenerateArticleMetadata | lib/seo.ts:59-94 | the Open Graph URL and the canonical link are the article URL; the title and excerpt reach the top level, Open Graph and Twitter; Open Graph and Twitter show the same image; the author name, section and publication date come from the article; the locale is en_US and the Twitter card is the large-image summary |
| Seo.GenerateTopicMetadata | lib/seo.ts:137-151 | the canonical and Open Graph URL is the topic URL; the title is the topic name; the Open Graph title is the name followed by " \| The Commoner" |
| Seo.Truncate | lib/seo.ts:159 | `substring(0, n)` is a prefix of length min(length, n), and it equals the input exactly when the input has at most n characters |
| Seo.GenerateWriterMetadata | lib/seo.ts:155-169 | the canonical and Open Graph URL is the writer URL; the description is the bio cut to its first 160 characters: a prefix of the bio of length min(160, n), equal to the bio exactly when the bio has at most 160 characters |
| Seo.GenerateArticleJsonLd | lib/seo.ts:98-133 | both dates are the article date; the page id is the article URL; the author is linked to the writer URL; the publisher has the site logo; the image follows the same fallback as the metadata; the record is a schema.org `NewsArticle` |
| Seo.JsonLdMatchesMetadata | lib/seo.ts:98-133 | the structured data agrees with the article metadata (page URL, image, headline, description, section, date, author), and its author link is the author's own canonical writer URL |
| Sitemap.BuildSitemap | app/sitemap.ts:6-49 | the sitemap has 2 + articles + topics + writers entries |
| Sitemap.SitemapLayout | app/sitemap.ts:11-48 | entry by entry: home (daily, 1.0), about (yearly, 0.5), articles newest first (monthly, 0.8, dated by the article), topics (weekly, 0.7), writers (monthly, 0.6); each URL is that page's canonical URL |
| Sitemap.SitemapArticleAt | app/sitemap.ts:11-16 | article entry i is built from article i of the sorted listing |
| Sitemap.SitemapTopicAt | app/sitemap.ts:18-23 | topic entry i is built from stored topic i |
| Sitemap.SitemapWriterAt | app/sitemap.ts:25-30 | writer entry i is built from stored writer i |
| Sitemap.SitemapArticlesNewestFirst | app/sitemap.ts:7-16 | the article entries' last-modified stamps never increase |
| Sitemap.SitemapUrlsEndInSlash | app/sitemap.ts:11-48 | every sitemap URL ends in a slash |
| Sitemap.FixedPagesDiffer | app/sitemap.ts:33-44 | the home and about URLs are not the URL of any article, topic or writer |
| Sitemap.ArticleEntriesCount | app/sitemap.ts:11-16 | the sitemap has an article's URL as many times as its slug is stored |
| Sitemap.TopicEntriesCount | app/sitemap.ts:18-23 | the sitemap has a topic's URL as many times as its slug is stored |
| Sitemap.WriterEntriesCount | app/sitemap.ts:25-30 | the sitemap has a writer's URL as many times as its slug is stored |
| Sitemap.StoredPagesListed | app/sitemap.ts:11-30 | no stored article, topic or writer is left out of the sitemap |
| HomePage.LatestArticles | app/page.tsx:37 | the first min(5, n) of the n non-featured articles, none of them featured |
| HomePage.SecondaryArticles | app/page.tsx:50 | non-featured articles 6 to 8, at most three, none featured |
| HomePage.LatestThenSecondary | app/page.tsx:37-50 | latest followed by secondary is the first eight non-featured articles; secondary ones appear only once the latest five are full |
| HomePage.LatestAreNewest | app/page.tsx:34-50 | on the newest-first listing, both lists are newest first; no non-featured article outside the latest five is newer than one in them |
| HomePage.LatestSecondaryDisjoint | app/page.tsx:37-50 | when no article is listed twice, no article is both a latest and a secondary one |
| HomePage.TopicHighlights | app/page.tsx:39-48 | at most four highlights |
| HomePage.TopicHighlightsSpec | app/page.tsx:39-48 | the highlights are the first four topics, in topic order, that have a non-featured article, each paired with the first such article of the listing |
| HomePage.HighlightIsTopicLead | app/page.tsx:39-48 | a highlighted article is a stored, non-featured article of its topic, and on the newest-first listing none of that topic's non-featured articles is newer |
| HomePage.HighlightOmitted | app/page.tsx:39-48 | when at most four topics qualify, a topic is highlighted if and only if it has a non-featured article |
| HomePage.Hero | app/page.tsx:56-58 | the hero is shown exactly when a featured article exists and its author resolves, and pairs that article with the first writer whose slug is its author slug |
| HomePage.MoreInTopic | app/page.tsx:141-143 | the first min(3, n) of the n non-featured articles of the featured article's topic, in listing order, never the featured article itself |
| HomePage.MoreInTopicNewest | app/page.tsx:141-143 | on the newest-first listing, the sidebar is newest first and holds the newest such articles |
| HomePage.DisplayTitle | app/page.tsx:94 | the title carries the "Live: " prefix exactly when the article is live, and is the plain title otherwise |
| HomePage.BuildHome | app/page.tsx:33-58 | the page's hero is `Hero`; the latest, highlight and secondary lists are those functions of the newest-first listing and the stored topics; the sidebar is `MoreInTopic` of the hero's article, and there is none without a hero |
| HomePage.HomeListsNewestFirst | app/page.tsx:33-50 | the latest, secondary and sidebar lists are newest first |
| HomePage.HomeShowsStoredArticles | app/page.tsx:33-50 | every article the page lists is a stored, non-featured article |
| HomePage.HomeLatestSecondaryDisjoint | app/page.tsx:33-50 | when no article is stored twice, no article of the page is both among the latest and among the secondary ones |
| HomePage.HomeHighlightsStored | app/page.tsx:39-48 | every highlighted article is a stored article |

## Left out

- `formatDate` (lib/data.ts:72-78): it relies on locale- and time-zone-dependent date formatting.
- Date parsing and `toISOString` (lib/seo.ts:79, 107-108). Dates are integer timestamps, and the metadata carries the timestamp rather than its ISO text. A date that does not parse (NaN in the comparator) is not modelled.
- Seo.GenerateArticleJsonLd: `JSON.stringify` (lib/seo.ts:132) is not modelled. The function returns the record before serialisation.
- Seo.Truncate: counts characters, whereas `substring` counts UTF-16 code units; the two differ only for characters outside the Basic Multilingual Plane.
- Data.GetTopicName: upper-cases ASCII letters only. `toUpperCase` maps all of Unicode, and for some characters it changes the length.
- `new Date()` in the sitemap (app/sitemap.ts:20, 27, 35, 41) is the build clock. It is the parameter `now`, one value for every undated entry, whereas each `new Date()` call reads the clock anew and the real stamps may differ by a few milliseconds from call to call.
- Loading the JSON collections (lib/data.ts:8-14) and reading the site URL from the environment (lib/seo.ts:7, app/sitemap.ts:4): the collections and `siteUrl` are parameters.
- `baseMetadata` (lib/seo.ts:13-55) is a constant configuration object with no logic. Only the constants it shares with the generators are modelled: the site name, the default image, the locale and the image size.
- Data.GetArticleWithAuthor: the result pairs the article with its author rather than copying the article's fields next to the author, as `{ ...article, author }` does.
- The homepage markup: the per-card author checks (app/page.tsx:199-200 and similar), the `replace(/-/g, ' ')` topic labels, images and badges. They are presentation inside the rendering.
- Duplicate-slug validation and a limit of one featured article: the code does neither, so the model does not either. `Data.FirstFeaturedWins` and `Data.UniqueSlugLookup` make the resulting behaviour explicit.
