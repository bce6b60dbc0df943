/**
 * The NewsSource REST controller, reduced to what each handler decides: how
 * the service's outcome (a boolean, a possibly-null record, or an exception)
 * becomes an HTTP status and an optional body.
 */
module NewsSourceController {
  import opened Outcomes
  import opened NewsSourceRepository
  import opened NewsSourceServices

  datatype Status = Ok | Created | NotFound | Conflict
  {
    /** The HTTP status code. */
    function Code(): (r: int)
    {
      match this
      case Ok => 200
      case Created => 201
      case NotFound => 404
      case Conflict => 409
    }
  }

  /** A `ResponseEntity`: a status and a body that may be absent. */
  datatype Response<T> = Response(status: Status, body: Option<T>)

  /** POST: 201 carrying exactly the submitted record when the service added it, 409 with no body otherwise. */
  function CreateNewsSource(added: bool, submitted: NewsSource): (r: Response<NewsSource>)
    ensures r.status.Code() == 201 <==> added
    ensures r.status.Code() == 409 <==> !added
    ensures r.body.Some? <==> added
    ensures r.body.Some? ==> r.body.value == submitted
  {
    if added then Response(Created, Some(submitted)) else Response(Conflict, None)
  }

  /** DELETE: 200 when the service deleted, 404 otherwise; never a body. */
  function DeleteNewsSource(deleted: bool): (r: Response<NewsSource>)
    ensures r.status.Code() == 200 <==> deleted
    ensures r.status.Code() == 404 <==> !deleted
    ensures r.body == None
  {
    if deleted then Response(Ok, None) else Response(NotFound, None)
  }

  /**
   * The rule shared by PUT and GET-by-id: a non-null record is 200 with that
   * record, null or NewsSourceNotFoundException is 404 with no body, and any
   * other exception is not caught and leaves the handler.
   */
  ghost predicate AnswersRecord(outcome: Outcome<Option<NewsSource>>, r: Outcome<Response<NewsSource>>)
  {
    && (r.Threw? <==> outcome.Threw? && outcome.exc != NewsSourceNotFound)
    && (r.Threw? ==> r.exc == outcome.exc)
    && (r.Returned? && r.value.status.Code() == 200 <==> outcome.Returned? && outcome.value.Some?)
    && (r.Returned? && r.value.status.Code() == 200 ==> r.value.body == outcome.value)
    && (r.Returned? && r.value.status.Code() != 200 ==> r.value == Response(NotFound, None))
  }

  /** PUT: maps the result of `updateNewsSource`. */
  function UpdateNewsSource(outcome: Outcome<Option<NewsSource>>): (r: Outcome<Response<NewsSource>>)
    ensures AnswersRecord(outcome, r)
  {
    match outcome
    case Returned(updated) =>
      if updated.Some? then Returned(Response(Ok, updated)) else Returned(Response(NotFound, None))
    case Threw(NewsSourceNotFound) => Returned(Response(NotFound, None))
    case Threw(e) => Threw(e)
  }

  /** GET by user and id: maps the result of `getNewsSourceById`. */
  function GetNewsSourceById(outcome: Outcome<Option<NewsSource>>): (r: Outcome<Response<NewsSource>>)
    ensures AnswersRecord(outcome, r)
  {
    match outcome
    case Returned(found) =>
      if found.Some? then Returned(Response(Ok, found)) else Returned(Response(NotFound, None))
    case Threw(NewsSourceNotFound) => Returned(Response(NotFound, None))
    case Threw(e) => Threw(e)
  }

  /** GET by user: always 200 with the list, an empty list included; never 404. */
  function GetAllNewsSource(all: seq<NewsSource>): (r: Response<seq<NewsSource>>)
    ensures r.status.Code() == 200 && r.body == Some(all)
  {
    Response(Ok, Some(all))
  }

  /**
   * A session against an empty collection, through service and controller:
   * POST {id 1, "BBC", by u1}, GET u1/1, POST it again, PUT {id 1, "BBC News"}
   * (no creator, no description), GET u1/1, DELETE 1, DELETE 1, GET u1/1, and
   * finally PUT on the deleted id. The PUT copies the missing creator as null,
   * so the record no longer belongs to u1; the last PUT ends in an uncaught
   * NoSuchElementException instead of a 404.
   */
  method Session() returns (codes: seq<int>, lastPut: Outcome<Response<NewsSource>>, afterPut: seq<NewsSource>)
    ensures codes == [201, 200, 409, 200, 404, 200, 404, 404]
    ensures afterPut == [NewsSource(1, Some("BBC News"), None, None)]
    ensures lastPut == Threw(NoSuchElement)
  {
    var bbc := NewsSource(1, Some("BBC"), None, Some("u1"));
    var renamed := NewsSource(1, Some("BBC News"), None, None);
    var service := new NewsSourceService([]);

    var added := service.AddNewsSource(bbc);
    assert service.repo == [bbc];
    var post1 := CreateNewsSource(added, bbc);

    var found := service.GetNewsSourceById("u1", 1);
    var get1 := GetNewsSourceById(Returned(found));

    added := service.AddNewsSource(bbc);
    assert bbc in [bbc];
    var post2 := CreateNewsSource(added, bbc);

    var updated := service.UpdateNewsSource(renamed, 1);
    assert updated == Returned(renamed);
    var put1 := UpdateNewsSource(Nullable(updated));
    afterPut := service.repo;
    assert afterPut == [renamed];

    found := service.GetNewsSourceById("u1", 1);
    assert FindAllByCreatedBy(afterPut, "u1") == [];
    var get2 := GetNewsSourceById(Returned(found));

    var deleted := service.DeleteNewsSource(1);
    assert renamed in afterPut;
    var del1 := DeleteNewsSource(deleted);
    assert service.repo == [];

    deleted := service.DeleteNewsSource(1);
    var del2 := DeleteNewsSource(deleted);

    found := service.GetNewsSourceById("u1", 1);
    var get3 := GetNewsSourceById(Returned(found));

    var missing := service.UpdateNewsSource(renamed, 1);
    lastPut := UpdateNewsSource(Nullable(missing));

    codes := [post1.status.Code(), get1.value.status.Code(), post2.status.Code(), put1.value.status.Code(),
              get2.value.status.Code(), del1.status.Code(), del2.status.Code(), get3.value.status.Code()];
  }
}
