/**
 * The `News` entity of the News service: a mutable record of ten fields.
 * `publishedAt` is never taken from a caller: the no-argument constructor and
 * `SetPublishedAt` read the wall clock, and the ten-argument constructor drops
 * the timestamp it is given.
 */
module NewsModel {
  import opened Outcomes

  /** A reading of the wall clock (`LocalDateTime.now()`), supplied by the caller of the model. */
  datatype Timestamp = Timestamp(ticks: int)

  /** The embedded `Reminder` document; its fields are not part of this model. */
  datatype ReminderData = ReminderData(document: string)

  /** The embedded `NewsSource` document of a news item; its fields are not part of this model. */
  datatype SourceData = SourceData(document: string)

  /** The stored form of a `News` object: its ten fields, each of which may be `null`. */
  datatype NewsDocument = NewsDocument(
    newsId: Option<int>,
    title: Option<string>,
    author: Option<string>,
    description: Option<string>,
    publishedAt: Option<Timestamp>,
    content: Option<string>,
    url: Option<string>,
    urlToImage: Option<string>,
    reminder: Option<ReminderData>,
    newsSource: Option<SourceData>)

  /** The document of a `News` whose ten fields are all `null`. */
  const Blank := NewsDocument(None, None, None, None, None, None, None, None, None, None)

  /**
   * The document after `updateNews` has copied the seven editable fields of `src`
   * onto `d`; the id, the timestamp and the embedded source stay those of `d`.
   */
  function Revise(d: NewsDocument, src: NewsDocument): (r: NewsDocument)
  {
    d.(author := src.author, content := src.content, description := src.description,
       title := src.title, url := src.url, urlToImage := src.urlToImage, reminder := src.reminder)
  }

  /**
   * The item the document mapper rebuilds from the stored document `d` at clock
   * reading `now`. The mapper starts from `new News()`, which stamps `now`, and
   * then writes only the fields the document holds. A null field is not stored,
   * so a null timestamp comes back as `now`, and every other field as stored.
   */
  function Loaded(d: NewsDocument, now: Timestamp): (r: NewsDocument)
    ensures r.publishedAt == (if d.publishedAt.Some? then d.publishedAt else Some(now))
    ensures r.(publishedAt := d.publishedAt) == d
  {
    if d.publishedAt.Some? then d else d.(publishedAt := Some(now))
  }

  /** A loaded item saved and read again comes back unchanged, whatever the later clock reading. */
  lemma LoadedTwice(d: NewsDocument, now: Timestamp, later: Timestamp)
    ensures Loaded(Loaded(d, now), later) == Loaded(d, now)
  {
  }

  class News {
    var newsId: Option<int>
    var title: Option<string>
    var author: Option<string>
    var description: Option<string>
    var publishedAt: Option<Timestamp>
    var content: Option<string>
    var url: Option<string>
    var urlToImage: Option<string>
    var reminder: Option<ReminderData>
    var newsSource: Option<SourceData>

    /** The ten fields as one value. */
    function Value(): (r: NewsDocument)
      reads this
    {
      NewsDocument(newsId, title, author, description, publishedAt, content, url, urlToImage, reminder, newsSource)
    }

    /** `new News()`: stamped with the clock reading `now`, every other field `null`. */
    constructor (now: Timestamp)
      ensures PublishedAt() == Some(now)
      ensures Value() == Blank.(publishedAt := Some(now))
    {
      newsId, title, author, description := None, None, None, None;
      publishedAt := Some(now);
      content, url, urlToImage, reminder, newsSource := None, None, None, None, None;
    }

    /**
     * The ten-argument constructor: copies nine arguments and ignores `publishedAt`,
     * so the new object's timestamp is `null` whatever the caller passed.
     */
    constructor WithFields(newsId: Option<int>, title: Option<string>, author: Option<string>,
                           description: Option<string>, publishedAt: Option<Timestamp>,
                           content: Option<string>, url: Option<string>, urlToImage: Option<string>,
                           reminder: Option<ReminderData>, newsSource: Option<SourceData>)
      ensures PublishedAt() == None
      ensures Value() == NewsDocument(newsId, title, author, description, None,
                                      content, url, urlToImage, reminder, newsSource)
    {
      this.newsId, this.title, this.author, this.description := newsId, title, author, description;
      this.publishedAt := None;
      this.content, this.url, this.urlToImage := content, url, urlToImage;
      this.reminder, this.newsSource := reminder, newsSource;
    }

    /**
     * An object read back from the store at clock reading `now`: the document
     * mapper runs `new News()` and then writes the fields `d` holds, so the
     * timestamp is the stored one when there is one and `now` otherwise.
     */
    constructor FromDocument(d: NewsDocument, now: Timestamp)
      ensures PublishedAt().Some?
      ensures Value() == Loaded(d, now)
    {
      newsId, title, author, description := d.newsId, d.title, d.author, d.description;
      publishedAt := Some(now);
      if d.publishedAt.Some? {
        publishedAt := d.publishedAt;
      }
      content, url, urlToImage := d.content, d.url, d.urlToImage;
      reminder, newsSource := d.reminder, d.newsSource;
    }

    function NewsId(): (r: Option<int>) reads this { newsId }
    function Title(): (r: Option<string>) reads this { title }
    function Author(): (r: Option<string>) reads this { author }
    function Description(): (r: Option<string>) reads this { description }
    function PublishedAt(): (r: Option<Timestamp>) reads this { publishedAt }
    function Content(): (r: Option<string>) reads this { content }
    function Url(): (r: Option<string>) reads this { url }
    function UrlToImage(): (r: Option<string>) reads this { urlToImage }
    function Reminder(): (r: Option<ReminderData>) reads this { reminder }
    function NewsSource(): (r: Option<SourceData>) reads this { newsSource }

    method SetNewsId(v: Option<int>)
      modifies this
      ensures NewsId() == v
      ensures Value() == old(Value()).(newsId := v)
    {
      newsId := v;
    }

    method SetTitle(v: Option<string>)
      modifies this
      ensures Title() == v
      ensures Value() == old(Value()).(title := v)
    {
      title := v;
    }

    method SetAuthor(v: Option<string>)
      modifies this
      ensures Author() == v
      ensures Value() == old(Value()).(author := v)
    {
      author := v;
    }

    method SetDescription(v: Option<string>)
      modifies this
      ensures Description() == v
      ensures Value() == old(Value()).(description := v)
    {
      description := v;
    }

    /** Takes no timestamp from the caller: re-stamps with the clock reading `now`. */
    method SetPublishedAt(now: Timestamp)
      modifies this
      ensures PublishedAt() == Some(now)
      ensures Value() == old(Value()).(publishedAt := Some(now))
    {
      publishedAt := Some(now);
    }

    method SetContent(v: Option<string>)
      modifies this
      ensures Content() == v
      ensures Value() == old(Value()).(content := v)
    {
      content := v;
    }

    method SetUrl(v: Option<string>)
      modifies this
      ensures Url() == v
      ensures Value() == old(Value()).(url := v)
    {
      url := v;
    }

    method SetUrlToImage(v: Option<string>)
      modifies this
      ensures UrlToImage() == v
      ensures Value() == old(Value()).(urlToImage := v)
    {
      urlToImage := v;
    }

    method SetReminder(v: Option<ReminderData>)
      modifies this
      ensures Reminder() == v
      ensures Value() == old(Value()).(reminder := v)
    {
      reminder := v;
    }

    /** Named `setNewssource` in the source. */
    method SetNewsSource(v: Option<SourceData>)
      modifies this
      ensures NewsSource() == v
      ensures Value() == old(Value()).(newsSource := v)
    {
      newsSource := v;
    }
  }
}
