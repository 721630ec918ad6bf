/** The content records of the publication: articles, writers and topics,
    and the in-memory store that holds the three collections once loaded. */
module Types {

  datatype Option<T> = None | Some(value: T)

  /** An article. `date` is the article's timestamp (milliseconds since the
      epoch, as `new Date(date).getTime()` would give it); `isLive` is false
      when the optional flag is absent. */
  datatype Article = Article(
    slug: string,
    title: string,
    excerpt: string,
    content: string,
    authorSlug: string,
    topic: string,
    date: int,
    featured: bool,
    image: string,
    imageAlt: string,
    readingTime: nat,
    isLive: bool)

  /** A writer; `twitter` is the optional social handle. */
  datatype Writer = Writer(
    slug: string,
    name: string,
    bio: string,
    title: string,
    image: string,
    twitter: Option<string>)

  datatype Topic = Topic(slug: string, name: string, description: string)

  /** An article together with its resolved author. */
  datatype ArticleWithAuthor = ArticleWithAuthor(article: Article, author: Writer)

  /** The three collections in the order the content files list them. */
  datatype Store = Store(articles: seq<Article>, writers: seq<Writer>, topics: seq<Topic>)
}
