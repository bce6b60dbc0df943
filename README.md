# Newz services: a Dafny model of the News and NewsSource service layers

Two small Spring Boot services keep user-scoped records in MongoDB:

- The **NewsSource** service adds, deletes, updates and looks up `NewsSource` records. Each record has an integer id, a name, a description and a creator. The collection is keyed by the id. A secondary query lists the records a user created.
- The **News** service keeps one `UserNews` unit per user: a user id plus a list of `News` items. It adds, deletes, updates and looks up items inside those units.
- The **NewsSource controller** turns each service outcome into an HTTP status and an optional body.

This project models the service implementations, the `News` entity and the NewsSource controller's status decisions. It proves what each operation does to the stored collection and what it answers. That includes the code's quirks, modelled as written:

- `addNews` compares only against the first item of the first non-empty list.
- `updateNews` appends the edited item to the list a second time.
- The `NewsSourceNotFoundException` in `updateNewsSource` can never be thrown.
- For an absent user, `deleteNews` and `getAllNewsByUserId` let the `NoSuchElementException` from `Optional.get` escape, while `deleteAllNews`, `updateNews` and `getNewsByNewsId` convert it to `NewsNotFoundException`.

## How the model is built

- `outcomes.dfy`: Java's `null` becomes `Option.None`. A call that throws becomes `Outcome.Threw(e)`. The exceptions are `NoSuchElementException`, `NullPointerException`, `NewsNotFoundException` and `NewsSourceNotFoundException`.
- `news.dfy`: `News` is a class with the ten mutable fields of the source. `Value()` gives them as a `NewsDocument`, the form the store keeps. The clock (`LocalDateTime.now()`) is a `Timestamp` parameter. Neither of the source's two constructors nor `setPublishedAt` takes a timestamp from the caller. A third constructor, `FromDocument`, stands for the document mapper, which rebuilds an item read from the store. The mapper starts from `new News()`, which stamps the clock reading. It then writes only the fields the document holds, and a null field is not stored. So a stored timestamp comes back as stored, and a null one comes back as the time of the read (`Loaded`). Every read of a unit's list goes through this (`LoadedList`). `addNews` and `updateNews` save the list as read, so they persist those stamps.
- `news_source_repository.dfy`, `news_repository.dfy`: the repositories are in-memory, ordered sequences of documents. They are value-semantic, as MongoDB is: a fetched record is a copy, and changes reach the store only through `insert`, `save`, `delete` or `deleteById`.
- `news_source_service.dfy`, `news_service.dfy`: the services are classes holding the collection. The state-changing methods have `modifies this`. Their postconditions give the whole new collection and the answer, case by case, including the exception paths. The scans the source writes as `for` loops are `while` loops, proved against recursive reference functions (`Scan`, `FirstExamined`, `FindById`).
- `news_source_controller.dfy`: each handler is a function from the service's outcome to a response. `Session` runs a POST/GET/PUT/DELETE sequence through service and controller. The service's `updateNewsSource` never returns null, but the PUT handler checks for null anyway. `Nullable` presents the service's result to the handler in that form.

Behaviours of the code that its own comments and signatures do not lead one to expect:

- A PUT whose body carries only a name sets the creator and description to `null`. `updateNewsSource` copies all three fields from the request body (NewsSourceServiceImpl.java:77-79). After such a PUT the source no longer belongs to its user, and `GET /{userId}/{id}` answers 404.
- A PUT on an absent id does not answer the 404 that the handler's comment promises (NewsSourceController.java:100-101). `findById(...).get()` throws `NoSuchElementException` (NewsSourceServiceImpl.java:75), and the controller catches only `NewsSourceNotFoundException`.
- `updateNewsSource` and `getNewsSourceById` declare `throws NewsSourceNotFoundException` (NewsSourceServiceImpl.java:74, :89), but neither can throw it. The null check at line 76 never fails, and `getNewsSourceById` returns `null` on a miss.
- `addNews` rejects a duplicate only when it is the first item of the first non-empty list (`DuplicateIdAccepted`).
- `deleteNews` removes the user's whole unit, not just the matching item (NewsServiceImpl.java:88).
- `deleteNews` (NewsServiceImpl.java:84) and `getAllNewsByUserId` (:163) let the `NoSuchElementException` from `Optional.get` escape for an absent user. `deleteAllNews`, `updateNews` and `getNewsByNewsId` catch it and throw `NewsNotFoundException` instead.

## Model

| member | source | states |
|---|---|---|
| `NewsModel.News.constructor` | NewsService/src/main/java/com/stackroute/newz/model/News.java:35-37 | `new News()` stamps `publishedAt` with the clock reading and leaves the other nine fields null |
| `NewsModel.News.WithFields` | NewsService/src/main/java/com/stackroute/newz/model/News.java:39-51 | copies the nine other arguments; the `publishedAt` argument is ignored and the timestamp stays null |
| `NewsModel.News.FromDocument` | NewsService/src/main/java/com/stackroute/newz/model/News.java:35-37 | the object the document mapper rebuilds from a stored item at clock reading `now` is `Loaded(d, now)`: every stored field as stored, and always a timestamp |
| `NewsModel.Loaded` | NewsService/src/main/java/com/stackroute/newz/model/News.java:35-37 | a read item keeps a stored timestamp, gets the read time when none is stored, and differs from the stored document in nothing else |
| `NewsModel.LoadedTwice` | NewsService/src/main/java/com/stackroute/newz/model/News.java:35-37 | an item read, saved and read again at a later time comes back unchanged |
| `NewsModel.News.SetNewsId` | NewsService/src/main/java/com/stackroute/newz/model/News.java:53-59 | the getter then returns the value set; the other nine fields are unchanged |
| `NewsModel.News.SetTitle` | NewsService/src/main/java/com/stackroute/newz/model/News.java:61-67 | the getter then returns the value set; the other nine fields are unchanged |
| `NewsModel.News.SetAuthor` | NewsService/src/main/java/com/stackroute/newz/model/News.java:69-75 | the getter then returns the value set; the other nine fields are unchanged |
| `NewsModel.News.SetDescription` | NewsService/src/main/java/com/stackroute/newz/model/News.java:77-83 | the getter then returns the value set; the other nine fields are unchanged |
| `NewsModel.News.SetPublishedAt` | NewsService/src/main/java/com/stackroute/newz/model/News.java:85-91 | takes no timestamp from the caller: re-stamps with the clock reading; the other nine fields are unchanged |
| `NewsModel.News.SetContent` | NewsService/src/main/java/com/stackroute/newz/model/News.java:93-99 | the getter then returns the value set; the other nine fields are unchanged |
| `NewsModel.News.SetUrl` | NewsService/src/main/java/com/stackroute/newz/model/News.java:101-107 | the getter then returns the value set; the other nine fields are unchanged |
| `NewsModel.News.SetUrlToImage` | NewsService/src/main/java/com/stackroute/newz/model/News.java:109-115 | the getter then returns the value set; the other nine fields are unchanged |
| `NewsModel.News.SetReminder` | NewsService/src/main/java/com/stackroute/newz/model/News.java:117-123 | the getter then returns the value set; the other nine fields are unchanged |
| `NewsModel.News.SetNewsSource` | NewsService/src/main/java/com/stackroute/newz/model/News.java:125-131 | `setNewssource`: the getter then returns the value set; the other nine fields are unchanged |
| `NewsSourceRepository.ExistsById` | NewsSourceService/src/main/java/com/stackroute/newz/service/NewsSourceServiceImpl.java:44 | `existsById` is true exactly when some stored record has the id |
| `NewsSourceRepository.FindById` | NewsSourceService/src/main/java/com/stackroute/newz/service/NewsSourceServiceImpl.java:58 | `findById` yields a stored record with that id, and is empty exactly when no record has it |
| `NewsSourceRepository.FindStored` | NewsSourceService/src/main/java/com/stackroute/newz/service/NewsSourceServiceImpl.java:75 | with unique ids, `findById` finds every stored record by its own id |
| `NewsSourceRepository.Insert` | NewsSourceService/src/main/java/com/stackroute/newz/service/NewsSourceServiceImpl.java:45 | inserting a free id keeps ids unique |
| `NewsSourceRepository.Save` | NewsSourceService/src/main/java/com/stackroute/newz/service/NewsSourceServiceImpl.java:80 | `save` keeps ids unique and grows the collection only when the id was new |
| `NewsSourceRepository.DeleteById` | NewsSourceService/src/main/java/com/stackroute/newz/service/NewsSourceServiceImpl.java:61 | afterwards the collection holds exactly the records whose id differs |
| `NewsSourceRepository.FindAllByCreatedBy` | NewsSourceService/src/main/java/com/stackroute/newz/service/NewsSourceServiceImpl.java:108-110 | holds exactly the stored records created by the user, and no more than the collection |
| `NewsSourceRepository.InsertThenFind` | NewsSourceService/src/main/java/com/stackroute/newz/service/NewsSourceServiceImpl.java:42-48 | after an insert of a fresh id, that id finds the new record and every other id finds what it found before |
| `NewsSourceRepository.SaveThenFind` | NewsSourceService/src/main/java/com/stackroute/newz/service/NewsSourceServiceImpl.java:74-81 | after `save`, its id finds the saved record and every other id finds what it found before |
| `NewsSourceRepository.DeleteKeepsUnique` | NewsSourceService/src/main/java/com/stackroute/newz/service/NewsSourceServiceImpl.java:61 | `deleteById` keeps ids unique |
| `NewsSourceRepository.DeleteThenFind` | NewsSourceService/src/main/java/com/stackroute/newz/service/NewsSourceServiceImpl.java:56-69 | after `deleteById`, that id finds nothing and every other id finds what it found before |
| `NewsSourceRepository.FilterAppend` | NewsSourceService/src/main/java/com/stackroute/newz/service/NewsSourceServiceImpl.java:108-110 | the creator filter keeps stored order: a record appended to the collection is listed last among its creator's |
| `NewsSourceRepository.ScopedLookup` | NewsSourceService/src/main/java/com/stackroute/newz/service/NewsSourceServiceImpl.java:89-103 | the lookup among a user's records equals the lookup by id followed by an ownership check |
| `NewsSourceServices.NewsSourceService.constructor` | NewsSourceService/src/main/java/com/stackroute/newz/service/NewsSourceServiceImpl.java:32-36 | the service works on the repository's collection as given |
| `NewsSourceServices.NewsSourceService.AddNewsSource` | NewsSourceService/src/main/java/com/stackroute/newz/service/NewsSourceServiceImpl.java:41-51 | answers true exactly when the id was free, and then the record is inserted; otherwise the collection is unchanged; ids stay unique |
| `NewsSourceServices.NewsSourceService.DeleteNewsSource` | NewsSourceService/src/main/java/com/stackroute/newz/service/NewsSourceServiceImpl.java:55-69 | answers true exactly when the id was stored, and then that record alone is removed; otherwise the collection is unchanged (the `Optional.get` failure is caught) |
| `NewsSourceServices.NewsSourceService.UpdateNewsSource` | NewsSourceService/src/main/java/com/stackroute/newz/service/NewsSourceServiceImpl.java:73-84 | on a stored id: copies creator, description and name (nulls included), keeps the id, saves and returns the record; on an absent id: `NoSuchElementException` with nothing written, never `NewsSourceNotFoundException` |
| `NewsSourceServices.NewsSourceService.GetNewsSourceById` | NewsSourceService/src/main/java/com/stackroute/newz/service/NewsSourceServiceImpl.java:88-103 | the loop returns the first of the user's records with the id, or null; the result is stored, has the id and belongs to the user; it never throws |
| `NewsSourceServices.NewsSourceService.GetAllNewsSourceByUserId` | NewsSourceService/src/main/java/com/stackroute/newz/service/NewsSourceServiceImpl.java:107-110 | the repository's creator filter itself: each of the user's records once, in stored order; membership holds exactly for the user's records; empty exactly when the user created none |
| `NewsSourceController.CreateNewsSource` | NewsSourceService/src/main/java/com/stackroute/newz/controller/NewsSourceController.java:59-68 | 201 exactly when the service added, with the submitted record as body; otherwise 409 with no body |
| `NewsSourceController.DeleteNewsSource` | NewsSourceService/src/main/java/com/stackroute/newz/controller/NewsSourceController.java:84-93 | 200 exactly when the service deleted, otherwise 404; never a body |
| `NewsSourceController.UpdateNewsSource` | NewsSourceService/src/main/java/com/stackroute/newz/controller/NewsSourceController.java:108-123 | a non-null record is 200 with it; null or `NewsSourceNotFoundException` is 404 with no body; any other exception propagates unchanged |
| `NewsSourceController.GetNewsSourceById` | NewsSourceService/src/main/java/com/stackroute/newz/controller/NewsSourceController.java:137-152 | a non-null record is 200 with it; null or `NewsSourceNotFoundException` is 404 with no body; any other exception propagates unchanged |
| `NewsSourceController.GetAllNewsSource` | NewsSourceService/src/main/java/com/stackroute/newz/controller/NewsSourceController.java:164-169 | always 200 with the list, an empty one included; never 404 |
| `NewsSourceController.Session` | NewsSourceService/src/main/java/com/stackroute/newz/controller/NewsSourceController.java:59-169 | POST, GET, POST, PUT(name only), GET, DELETE, DELETE, GET answer 201, 200, 409, 200, 404, 200, 404, 404; the PUT leaves creator and description null; a PUT after deletion throws `NoSuchElementException` |
| `NewsRepository.IndexOfUser` | NewsService/src/main/java/com/stackroute/newz/service/NewsServiceImpl.java:84 | `findById(userId)` finds the first unit keyed by the user, or reports that none is |
| `NewsRepository.RemoveAt` | NewsService/src/main/java/com/stackroute/newz/service/NewsServiceImpl.java:88 | removing a unit shifts the later units down by one and changes nothing else |
| `NewsRepository.RemoveKeepsUnique` | NewsService/src/main/java/com/stackroute/newz/service/NewsServiceImpl.java:102 | `delete` keeps user ids unique |
| `NewsRepository.ReplaceKeepsLookup` | NewsService/src/main/java/com/stackroute/newz/service/NewsServiceImpl.java:130 | saving a fetched unit back in place keeps user ids unique and every user lookup unchanged |
| `NewsRepository.RemovedUserIsGone` | NewsService/src/main/java/com/stackroute/newz/service/NewsServiceImpl.java:88 | after a user's unit is removed, looking the user up finds nothing |
| `NewsRepository.RemoveKeepsOtherUsers` | NewsService/src/main/java/com/stackroute/newz/service/NewsServiceImpl.java:102 | removing one user's unit leaves every other user's lookup pointing at the same unit |
| `NewsServices.Scan` | NewsService/src/main/java/com/stackroute/newz/service/NewsServiceImpl.java:86-91 | the walk for a news id stops at the first item whose id is null (`NullPointerException`) or equal (match), having passed only items with other ids; a miss means every item has another id |
| `NewsServices.FindNews` | NewsService/src/main/java/com/stackroute/newz/service/NewsServiceImpl.java:148-151 | the `for` loop over a list stops exactly where `Scan` says |
| `NewsServices.FirstExamined` | NewsService/src/main/java/com/stackroute/newz/service/NewsServiceImpl.java:65-77 | `addNews`'s outer loop stops at the first unit whose list is null or non-empty, having passed only empty lists |
| `NewsServices.LookupNews` | NewsService/src/main/java/com/stackroute/newz/service/NewsServiceImpl.java:144-156 | `NewsNotFoundException` exactly for an absent user; a null list gives `NullPointerException`. Otherwise the walk's first stop decides: a null id gives `NullPointerException`, and an equal id returns that item as the mapper reads it. The result is null exactly when every item has another id. A returned item always carries a timestamp |
| `NewsServices.LoadedList` | NewsService/src/main/java/com/stackroute/newz/service/NewsServiceImpl.java:146-147 | the list as read: the same length, and each item as the mapper reads it |
| `NewsServices.ScanIgnoresLoading` | NewsService/src/main/java/com/stackroute/newz/service/NewsServiceImpl.java:148-151 | the walk for a news id stops at the same place on the list as read and on the list as stored |
| `NewsServices.RevisedFoundFirst` | NewsService/src/main/java/com/stackroute/newz/service/NewsServiceImpl.java:119-131 | after the edit and the second append, the walk still stops at the edited item's position |
| `NewsServices.UpdateThenLookup` | NewsService/src/main/java/com/stackroute/newz/service/NewsServiceImpl.java:115-131 | after `updateNews` writes the edited item, `getNewsByNewsId` at any later time answers exactly that item |
| `NewsServices.DeleteThenLookup` | NewsService/src/main/java/com/stackroute/newz/service/NewsServiceImpl.java:83-109 | after `deleteNews` or `deleteAllNews` removes a user's unit, `getNewsByNewsId` for that user throws `NewsNotFoundException` |
| `NewsServices.NewsService.constructor` | NewsService/src/main/java/com/stackroute/newz/service/NewsServiceImpl.java:41-44 | the service works on the repository's collection as given |
| `NewsServices.NewsService.AddNews` | NewsService/src/main/java/com/stackroute/newz/service/NewsServiceImpl.java:49-79 | empty store: saves a new keyless unit holding `[news]`, true. Otherwise only the first item of the first non-empty list is compared: same id gives false, anything else appends `news` there and gives true. A null list or null stored id gives `NullPointerException`; all lists empty gives false. The saved list is the list as read, so its null timestamps are saved as the read time. Nothing else changes; user ids stay unique |
| `NewsServices.NewsService.DeleteNews` | NewsService/src/main/java/com/stackroute/newz/service/NewsServiceImpl.java:83-93 | removes the user's whole unit and answers true when the walk matches. A miss answers false and writes nothing. An absent user gives `NoSuchElementException`; a null list or null stored id gives `NullPointerException` |
| `NewsServices.NewsService.DeleteAllNews` | NewsService/src/main/java/com/stackroute/newz/service/NewsServiceImpl.java:97-109 | an absent user gives `NewsNotFoundException` with nothing written; a non-null list removes the unit and answers true; a null list answers false |
| `NewsServices.NewsService.UpdateNews` | NewsService/src/main/java/com/stackroute/newz/service/NewsServiceImpl.java:115-138 | on a match: the seven editable fields are copied from `news`, and id and embedded source are kept. The timestamp is the stored one, or the read time when none is stored. The list is saved as read. The edited item replaces the match and is appended again (the list grows by one); the unit is saved and the edited object returned. A miss returns null and writes nothing. An absent user gives `NewsNotFoundException`; a null list or null stored id gives `NullPointerException` |
| `NewsServices.NewsService.GetNewsByNewsId` | NewsService/src/main/java/com/stackroute/newz/service/NewsServiceImpl.java:144-156 | writes nothing and answers as `LookupNews`. That is the first item the walk stops at, as read, when its id is equal; `NullPointerException` when that item's id is null; null when every item has another id; `NewsNotFoundException` for an absent user |
| `NewsServices.NewsService.GetAllNewsByUserId` | NewsService/src/main/java/com/stackroute/newz/service/NewsServiceImpl.java:162-164 | the user's list as read (null when stored null); `NoSuchElementException` when the user is absent |
| `NewsServices.DuplicateIdAccepted` | NewsService/src/main/java/com/stackroute/newz/service/NewsServiceImpl.java:65-76 | with ids 1 and 2 stored in one list, `addNews` of id 2 answers true and the list then holds id 2 twice |

## Left out

- Spring wiring, annotations, `logger.info` calls and the application bootstrap class: they carry no logic.
- `News.toString` and the JSON serialisation of `publishedAt`: display and wire formatting only.
- HTTP transport, request parsing and path binding. The status Spring gives an exception that leaves a handler (500) is not modelled: the handler's result is `Threw(e)`.
- The exception messages: only the kind of exception is modelled.
- The MongoDB driver. The repositories are in-memory sequences. `insert`, `save` and `deleteById` never fail, so the source's `!= null` checks on their results always pass.
- AddNews: the `findAll() == null` guard (NewsServiceImpl.java:54-56) is not modelled. The in-memory `findAll`, like Spring Data's, always returns a list, so the branch cannot be reached.
- AddNews: a new unit saved with a null user id keeps `userId == None`. The key MongoDB would generate for it is not modelled, so `findById` never finds such a unit.
- `Reminder` and the embedded `NewsSource` of a news item are opaque values (`ReminderData`, `SourceData`); their classes are not part of this model. `UserNews` has only its user id and list.
- `NewsSource` (the NewsSource service's record class) is not part of this model. It is taken to have a primitive `int` id and nullable strings. `updateNewsSource`'s three setters on the fetched copy are one record update.
- The wall clock `LocalDateTime.now()` is a `Timestamp` argument.
- Null references passed as arguments (a null `news` or `newsSource`), and null items inside a stored list. Lists hold documents, which are never null.
- NewsServices.NewsService.GetNewsByNewsId: returns the item as a document value rather than a `News` object. Its fields are those the mapper would give the object.
- NewsServices.LoadedList: every item read in one operation gets the same clock reading. The source reads the clock once per item, so two items read in one call may get different times.
- Integer width: ids are only compared, never computed, so `int` and `Integer` need no wrap-around.
- Concurrent requests: the model is single-threaded, and each operation is one step.
