/**
 * The News service: adds, deletes, updates and looks up news in the
 * repository's `UserNews` units. Every lookup by news id walks a unit's list
 * comparing `getNewsId().equals(newsId)`, so a stored item whose id is `null`
 * stops the walk with a NullPointerException.
 */
module NewsServices {
  import opened Outcomes
  import opened NewsModel
  import opened NewsRepository

  /** The walk over a list moves past `d`: its id is set and is not the one sought. */
  predicate Passes(d: NewsDocument, newsId: int)
  {
    d.newsId.Some? && d.newsId.value != newsId
  }

  /** The walk for `newsId` over `list` stops at `k`: every earlier item passes and the item at `k` does not. */
  predicate StopsAt(list: seq<NewsDocument>, newsId: int, k: nat)
  {
    k < |list| && !Passes(list[k], newsId) && forall j :: 0 <= j < k ==> Passes(list[j], newsId)
  }

  /** Where a walk for one news id over a list stops. */
  datatype ScanResult = Miss | NullIdAt(k: nat) | MatchAt(k: nat)

  /** The walk for `newsId` over `list`, stopping at the first item whose id is null or equal. */
  function Scan(list: seq<NewsDocument>, newsId: int): (r: ScanResult)
    ensures r.Miss? <==> forall j :: 0 <= j < |list| ==> Passes(list[j], newsId)
    ensures r.NullIdAt? ==> r.k < |list| && list[r.k].newsId.None?
                            && forall j :: 0 <= j < r.k ==> Passes(list[j], newsId)
    ensures r.MatchAt? ==> r.k < |list| && list[r.k].newsId == Some(newsId)
                           && forall j :: 0 <= j < r.k ==> Passes(list[j], newsId)
  {
    if |list| == 0 then Miss
    else if list[0].newsId.None? then NullIdAt(0)
    else if list[0].newsId.value == newsId then MatchAt(0)
    else match Scan(list[1..], newsId)
      case Miss => Miss
      case NullIdAt(k) => NullIdAt(k + 1)
      case MatchAt(k) => MatchAt(k + 1)
  }

  /** The `for (News newsWithId : newsList)` walk shared by deleteNews, updateNews and getNewsByNewsId. */
  method FindNews(list: seq<NewsDocument>, newsId: int) returns (r: ScanResult)
    ensures r == Scan(list, newsId)
  {
    var k := 0;
    while k < |list|
      invariant 0 <= k <= |list|
      invariant forall j :: 0 <= j < k ==> Passes(list[j], newsId)
    {
      if list[k].newsId.None? {
        return NullIdAt(k);
      }
      if list[k].newsId.value == newsId {
        return MatchAt(k);
      }
      k := k + 1;
    }
    return Miss;
  }

  /** A stored list as the document mapper reads it at clock reading `now`, item by item. */
  function LoadedList(list: seq<NewsDocument>, now: Timestamp): (r: seq<NewsDocument>)
    ensures |r| == |list|
    ensures forall j :: 0 <= j < |list| ==> r[j] == Loaded(list[j], now)
  {
    seq(|list|, j requires 0 <= j < |list| => Loaded(list[j], now))
  }

  /** Reading a list through the mapper does not move where a walk for a news id stops: ids are stored as they are. */
  lemma {:induction false} ScanIgnoresLoading(list: seq<NewsDocument>, newsId: int, now: Timestamp)
    ensures Scan(LoadedList(list, now), newsId) == Scan(list, newsId)
  {
    if |list| > 0 {
      var loaded := LoadedList(list, now);
      assert loaded[1..] == LoadedList(list[1..], now);
      ScanIgnoresLoading(list[1..], newsId, now);
    }
  }

  /**
   * The unit at which addNews's outer loop stops: the first whose list is null
   * (the inner loop throws) or non-empty (the inner loop returns at once).
   */
  function FirstExamined(units: seq<UserNews>): (r: Option<nat>)
    ensures r.Some? ==> r.value < |units| && units[r.value].newslist != Some([])
                        && forall j :: 0 <= j < r.value ==> units[j].newslist == Some([])
    ensures r.None? ==> forall j :: 0 <= j < |units| ==> units[j].newslist == Some([])
  {
    if |units| == 0 then None
    else if units[0].newslist != Some([]) then Some(0)
    else match FirstExamined(units[1..])
      case None => None
      case Some(k) => Some(k + 1)
  }

  /** What getNewsByNewsId answers for `userId` and `newsId` over `units`, reading the list at clock reading `now`. */
  function LookupNews(units: seq<UserNews>, userId: string, newsId: int, now: Timestamp): (r: Outcome<Option<NewsDocument>>)
    ensures r == Threw(NewsNotFound) <==> IndexOfUser(units, userId).None?
    ensures r.Returned? && r.value.Some? ==> r.value.value.newsId == Some(newsId) && r.value.value.publishedAt.Some?
    ensures var i := IndexOfUser(units, userId);
            i.Some? && units[i.value].newslist.None? ==> r == Threw(NullPointer)
    ensures var i := IndexOfUser(units, userId);
            i.Some? && units[i.value].newslist.Some? ==>
              var list := units[i.value].newslist.value;
              && (r == Returned(None) <==> forall j :: 0 <= j < |list| ==> Passes(list[j], newsId))
              && (forall k: nat :: StopsAt(list, newsId, k) && list[k].newsId.None? ==> r == Threw(NullPointer))
              && (forall k: nat :: StopsAt(list, newsId, k) && list[k].newsId.Some? ==> r == Returned(Some(Loaded(list[k], now))))
              && (r.Returned? && r.value.Some? ==> exists k: nat :: StopsAt(list, newsId, k) && r.value.value == Loaded(list[k], now))
  {
    match IndexOfUser(units, userId)
    case None => Threw(NewsNotFound)
    case Some(i) =>
      match units[i].newslist
      case None => Threw(NullPointer)
      case Some(list) =>
        match Scan(list, newsId)
        case Miss => Returned(None)
        case NullIdAt(_) => Threw(NullPointer)
        case MatchAt(k) => Returned(Some(Loaded(list[k], now)))
  }

  /** After updateNews's write the walk still stops at the revised item, not at its appended copy. */
  lemma {:induction false} RevisedFoundFirst(list: seq<NewsDocument>, newsId: int, k: nat, d: NewsDocument)
    requires Scan(list, newsId) == MatchAt(k) && d.newsId == list[k].newsId
    ensures Scan(list[k := d] + [d], newsId) == MatchAt(k)
  {
    var l := list[k := d] + [d];
    assert forall j :: 0 <= j < k ==> l[j] == list[j];
    assert l[k] == d;
  }

  /**
   * Once updateNews, reading the list at `now`, has written the revised item (which
   * carries a timestamp), getNewsByNewsId at any later reading answers exactly that item.
   */
  lemma UpdateThenLookup(units: seq<UserNews>, userId: string, newsId: int, revised: NewsDocument, now: Timestamp, later: Timestamp)
    requires UniqueUsers(units)
    requires IndexOfUser(units, userId).Some?
    requires units[IndexOfUser(units, userId).value].newslist.Some?
    requires Scan(units[IndexOfUser(units, userId).value].newslist.value, newsId).MatchAt?
    requires revised.newsId == Some(newsId) && revised.publishedAt.Some?
    ensures var i := IndexOfUser(units, userId).value;
            var loaded := LoadedList(units[i].newslist.value, now);
            var k := Scan(units[i].newslist.value, newsId).k;
            LookupNews(units[i := UserNews(units[i].userId, Some(loaded[k := revised] + [revised]))], userId, newsId, later)
              == Returned(Some(revised))
  {
    var i := IndexOfUser(units, userId).value;
    var list := units[i].newslist.value;
    var loaded := LoadedList(list, now);
    var k := Scan(list, newsId).k;
    ScanIgnoresLoading(list, newsId, now);
    var v := UserNews(units[i].userId, Some(loaded[k := revised] + [revised]));
    ReplaceKeepsLookup(units, i, v, userId);
    RevisedFoundFirst(loaded, newsId, k, revised);
  }

  /** Once deleteNews or deleteAllNews has removed a user's unit, getNewsByNewsId for that user throws NewsNotFoundException. */
  lemma DeleteThenLookup(units: seq<UserNews>, userId: string, newsId: int, now: Timestamp)
    requires UniqueUsers(units) && IndexOfUser(units, userId).Some?
    ensures LookupNews(RemoveAt(units, IndexOfUser(units, userId).value), userId, newsId, now) == Threw(NewsNotFound)
  {
    RemovedUserIsGone(units, IndexOfUser(units, userId).value, userId);
  }

  class NewsService {
    /** The repository's units, in the order `findAll` lists them. */
    var units: seq<UserNews>

    ghost predicate Valid()
      reads this
    {
      UniqueUsers(units)
    }

    /** The service over an existing collection. */
    constructor (units: seq<UserNews>)
      requires UniqueUsers(units)
      ensures Valid() && this.units == units
    {
      this.units := units;
    }

    /**
     * `addNews`. On an empty collection it saves a new unit with no user id whose
     * list is `[news]`. Otherwise it compares `news` only with the FIRST item of the
     * first unit whose list is non-empty: the same id answers false, any other id
     * appends `news` to that list, saves the unit and answers true. A null list or
     * a null stored id on the way throws NullPointerException; a collection whose
     * lists are all empty answers false. The unit saved holds its list as the
     * mapper read it at `now`, so its null timestamps are saved as `now`.
     */
    method AddNews(news: News, now: Timestamp) returns (r: Outcome<bool>)
      requires Valid()
      modifies this
      ensures Valid()
      ensures old(units) == [] ==> r == Returned(true) && units == [UserNews(None, Some([news.Value()]))]
      ensures old(units) != [] ==>
        match FirstExamined(old(units))
        case None => r == Returned(false) && units == old(units)
        case Some(i) =>
          match old(units)[i].newslist
          case None => r == Threw(NullPointer) && units == old(units)
          case Some(list) =>
            if list[0].newsId.None? then r == Threw(NullPointer) && units == old(units)
            else if list[0].newsId == news.NewsId() then r == Returned(false) && units == old(units)
            else r == Returned(true)
                 && units == old(units)[i := UserNews(old(units)[i].userId, Some(LoadedList(list, now) + [news.Value()]))]
    {
      if |units| == 0 {
        units := [UserNews(None, Some([news.Value()]))];
        return Returned(true);
      }
      var i := 0;
      while i < |units|
        invariant 0 <= i <= |units|
        invariant units == old(units)
        invariant forall j :: 0 <= j < i ==> units[j].newslist == Some([])
      {
        var unit := units[i];
        if unit.newslist.None? {
          return Threw(NullPointer);
        }
        var list := unit.newslist.value;
        // the inner for-each returns in both branches of its first iteration
        if |list| != 0 {
          if list[0].newsId.None? {
            return Threw(NullPointer);
          }
          if list[0].newsId == news.NewsId() {
            return Returned(false);
          }
          var saved := UserNews(unit.userId, Some(LoadedList(list, now) + [news.Value()]));
          ReplaceKeepsLookup(units, i, saved, "");
          units := units[i := saved];
          return Returned(true);
        }
        i := i + 1;
      }
      return Returned(false);
    }

    /**
     * `deleteNews`: when the user's list holds an item with `newsId`, removes the
     * user's whole unit and answers true; otherwise answers false and writes
     * nothing. An absent user throws NoSuchElementException from `get()`.
     */
    method DeleteNews(userId: string, newsId: int) returns (r: Outcome<bool>)
      requires Valid()
      modifies this
      ensures Valid()
      ensures match IndexOfUser(old(units), userId)
        case None => r == Threw(NoSuchElement) && units == old(units)
        case Some(i) =>
          match old(units)[i].newslist
          case None => r == Threw(NullPointer) && units == old(units)
          case Some(list) =>
            match Scan(list, newsId)
            case Miss => r == Returned(false) && units == old(units)
            case NullIdAt(_) => r == Threw(NullPointer) && units == old(units)
            case MatchAt(_) => r == Returned(true) && units == RemoveAt(old(units), i)
    {
      var found := IndexOfUser(units, userId);
      if found.None? {
        return Threw(NoSuchElement);
      }
      var i := found.value;
      if units[i].newslist.None? {
        return Threw(NullPointer);
      }
      // the walk reads only ids, which the mapper returns as stored (ScanIgnoresLoading)
      var scan := FindNews(units[i].newslist.value, newsId);
      match scan
      case Miss =>
        return Returned(false);
      case NullIdAt(_) =>
        return Threw(NullPointer);
      case MatchAt(_) =>
        RemoveKeepsUnique(units, i);
        units := RemoveAt(units, i);
        return Returned(true);
    }

    /**
     * `deleteAllNews`: removes the user's unit and answers true when its list is
     * not null, answers false when it is; an absent user's NoSuchElementException
     * is turned into NewsNotFoundException.
     */
    method DeleteAllNews(userId: string) returns (r: Outcome<bool>)
      requires Valid()
      modifies this
      ensures Valid()
      ensures match IndexOfUser(old(units), userId)
        case None => r == Threw(NewsNotFound) && units == old(units)
        case Some(i) =>
          if old(units)[i].newslist.Some? then r == Returned(true) && units == RemoveAt(old(units), i)
          else r == Returned(false) && units == old(units)
    {
      var found := IndexOfUser(units, userId);
      if found.None? {
        return Threw(NewsNotFound);
      }
      var i := found.value;
      if units[i].newslist.Some? {
        RemoveKeepsUnique(units, i);
        units := RemoveAt(units, i);
        return Returned(true);
      }
      return Returned(false);
    }

    /**
     * `updateNews`: on the first item of the user's list with `newsId`, sets author,
     * content, description, title, url, urlToImage and reminder from `news`; that
     * same item is then appended to the list again, the unit saved, and the item
     * returned. No match returns null and writes nothing. An absent user throws
     * NewsNotFoundException; a null list or null stored id throws
     * NullPointerException, which is not caught. The list is read through the
     * mapper at `now`, and the whole list is saved as read.
     */
    method UpdateNews(news: News, newsId: int, userId: string, now: Timestamp) returns (r: Outcome<Option<News>>)
      requires Valid()
      modifies this
      ensures Valid()
      ensures match IndexOfUser(old(units), userId)
        case None => r == Threw(NewsNotFound) && units == old(units)
        case Some(i) =>
          match old(units)[i].newslist
          case None => r == Threw(NullPointer) && units == old(units)
          case Some(list) =>
            match Scan(list, newsId)
            case Miss => r == Returned(None) && units == old(units)
            case NullIdAt(_) => r == Threw(NullPointer) && units == old(units)
            case MatchAt(k) =>
              var loaded := LoadedList(list, now);
              var revised := Revise(loaded[k], news.Value());
              && r.Returned? && r.value.Some? && fresh(r.value.value)
              && r.value.value.Value() == revised
              && revised.newsId == Some(newsId)
              && revised.publishedAt == (if list[k].publishedAt.Some? then list[k].publishedAt else Some(now))
              && revised.newsSource == list[k].newsSource
              && units == old(units)[i := UserNews(old(units)[i].userId, Some(loaded[k := revised] + [revised]))]
    {
      var found := IndexOfUser(units, userId);
      if found.None? {
        return Threw(NewsNotFound);
      }
      var i := found.value;
      if units[i].newslist.None? {
        return Threw(NullPointer);
      }
      var stored := units[i].newslist.value;
      // the list as the mapper reads it; the walk stops where it would on the stored list
      var list := LoadedList(stored, now);
      ScanIgnoresLoading(stored, newsId, now);
      var scan := FindNews(list, newsId);
      if scan.Miss? {
        return Returned(None);
      }
      if scan.NullIdAt? {
        return Threw(NullPointer);
      }
      var k := scan.k;
      // the list item as an object, edited in place through its setters
      var item := new News.FromDocument(stored[k], now);
      item.SetAuthor(news.Author());
      item.SetContent(news.Content());
      item.SetDescription(news.Description());
      item.SetTitle(news.Title());
      item.SetUrl(news.Url());
      item.SetUrlToImage(news.UrlToImage());
      item.SetReminder(news.Reminder());
      // newsList.add(newsWithId): the edited item stays at k and is appended again
      var saved := UserNews(units[i].userId, Some(list[k := item.Value()] + [item.Value()]));
      ReplaceKeepsLookup(units, i, saved, userId);
      units := units[i := saved];
      return Returned(Some(item));
    }

    /**
     * `getNewsByNewsId`: the first item of the user's list with `newsId`, as the
     * mapper reads it at `now`, or null; NewsNotFoundException for an absent user.
     * Writes nothing.
     */
    method GetNewsByNewsId(userId: string, newsId: int, now: Timestamp) returns (r: Outcome<Option<NewsDocument>>)
      ensures r == LookupNews(units, userId, newsId, now)
    {
      var found := IndexOfUser(units, userId);
      if found.None? {
        return Threw(NewsNotFound);
      }
      var stored := units[found.value].newslist;
      if stored.None? {
        return Threw(NullPointer);
      }
      var list := LoadedList(stored.value, now);
      ScanIgnoresLoading(stored.value, newsId, now);
      var scan := FindNews(list, newsId);
      match scan
      case Miss =>
        return Returned(None);
      case NullIdAt(_) =>
        return Threw(NullPointer);
      case MatchAt(k) =>
        return Returned(Some(list[k]));
    }

    /**
     * `getAllNewsByUserId`: the user's list as the mapper reads it at `now`
     * (possibly null); an absent user throws NoSuchElementException, not
     * NewsNotFoundException.
     */
    method GetAllNewsByUserId(userId: string, now: Timestamp) returns (r: Outcome<Option<seq<NewsDocument>>>)
      requires Valid()
      ensures forall u :: u in units && u.userId == Some(userId) ==>
                r.Returned? && (r.value.Some? <==> u.newslist.Some?)
                && (u.newslist.Some? ==> r.value.value == LoadedList(u.newslist.value, now))
      ensures (forall u :: u in units ==> u.userId != Some(userId)) ==> r == Threw(NoSuchElement)
    {
      var found := IndexOfUser(units, userId);
      if found.None? {
        return Threw(NoSuchElement);
      }
      var stored := units[found.value].newslist;
      if stored.None? {
        return Returned(None);
      }
      return Returned(Some(LoadedList(stored.value, now)));
    }
  }

  /**
   * addNews looks only at the first item of the first non-empty list, so a news
   * item whose id is already stored further down is appended a second time.
   */
  method DuplicateIdAccepted() returns (r: Outcome<bool>, stored: seq<NewsDocument>)
    ensures r == Returned(true)
    ensures |stored| == 3 && stored[1].newsId == Some(2) && stored[2].newsId == Some(2)
  {
    var first := Blank.(newsId := Some(1));
    var second := Blank.(newsId := Some(2));
    var service := new NewsService([UserNews(Some("u1"), Some([first, second]))]);
    var news := new News.WithFields(Some(2), None, None, None, None, None, None, None, None, None);
    r := service.AddNews(news, Timestamp(0));
    stored := service.units[0].newslist.value;
  }
}
