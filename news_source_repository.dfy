/**
 * The NewsSource collection as the NewsSource service sees it through its
 * repository: an ordered sequence of records with unique ids, and the
 * repository calls the service makes (existsById, findById, insert, save,
 * deleteById, findAllNewsSourceByNewsSourceCreatedBy).
 */
module NewsSourceRepository {
  import opened Outcomes

  /** A news source record; its id is a primitive `int`, its strings may be `null`. */
  datatype NewsSource = NewsSource(id: int, name: Option<string>, desc: Option<string>, createdBy: Option<string>)

  /** The collection's primary-key invariant. */
  ghost predicate UniqueIds(store: seq<NewsSource>)
  {
    forall i, j :: 0 <= i < j < |store| ==> store[i].id != store[j].id
  }

  /** Position of the first record with `id`. */
  function IndexOf(store: seq<NewsSource>, id: int): (r: Option<nat>)
    ensures r.Some? ==> r.value < |store| && store[r.value].id == id
    ensures r.Some? ==> forall j :: 0 <= j < r.value ==> store[j].id != id
    ensures r.None? ==> forall j :: 0 <= j < |store| ==> store[j].id != id
  {
    if |store| == 0 then None
    else if store[0].id == id then Some(0)
    else match IndexOf(store[1..], id)
      case None => None
      case Some(k) => Some(k + 1)
  }

  /** `existsById`. */
  function ExistsById(store: seq<NewsSource>, id: int): (b: bool)
    ensures b <==> exists s :: s in store && s.id == id
  {
    IndexOf(store, id).Some?
  }

  /** `findById`: the record with `id`, or an empty Optional. */
  function FindById(store: seq<NewsSource>, id: int): (r: Option<NewsSource>)
    ensures r.Some? ==> r.value in store && r.value.id == id
    ensures r.None? <==> !ExistsById(store, id)
  {
    match IndexOf(store, id)
    case None => None
    case Some(i) => Some(store[i])
  }

  /** `insert` of a record whose id is not yet taken (the only way the service calls it). */
  function Insert(store: seq<NewsSource>, s: NewsSource): (r: seq<NewsSource>)
    requires !ExistsById(store, s.id)
    ensures UniqueIds(store) ==> UniqueIds(r)
  {
    store + [s]
  }

  /** `save`: overwrites the record with the same id in place, or appends a new one. */
  function Save(store: seq<NewsSource>, s: NewsSource): (r: seq<NewsSource>)
    ensures UniqueIds(store) ==> UniqueIds(r)
    ensures |r| == |store| + (if ExistsById(store, s.id) then 0 else 1)
  {
    match IndexOf(store, s.id)
    case Some(i) => store[i := s]
    case None => store + [s]
  }

  /** `deleteById`: the collection without the record carrying `id`. */
  function DeleteById(store: seq<NewsSource>, id: int): (r: seq<NewsSource>)
    ensures forall s :: s in r <==> s in store && s.id != id
  {
    if |store| == 0 then []
    else (if store[0].id == id then [] else [store[0]]) + DeleteById(store[1..], id)
  }

  /** `findAllNewsSourceByNewsSourceCreatedBy`: the records created by `user`, in stored order. */
  function FindAllByCreatedBy(store: seq<NewsSource>, user: string): (r: seq<NewsSource>)
    ensures forall s :: s in r <==> s in store && s.createdBy == Some(user)
    ensures |r| <= |store|
  {
    if |store| == 0 then []
    else (if store[0].createdBy == Some(user) then [store[0]] else []) + FindAllByCreatedBy(store[1..], user)
  }

  /** In a collection with unique ids, `findById` finds every stored record by its own id. */
  lemma FindStored(store: seq<NewsSource>, s: NewsSource)
    requires UniqueIds(store) && s in store
    ensures FindById(store, s.id) == Some(s)
  {
    var j :| 0 <= j < |store| && store[j] == s;
    var i := IndexOf(store, s.id).value;
    assert i == j;
  }

  /** After an insert of a fresh id the new record is found by that id, and every other id finds what it found before. */
  lemma {:induction false} InsertThenFind(store: seq<NewsSource>, s: NewsSource, other: int)
    requires !ExistsById(store, s.id)
    ensures FindById(Insert(store, s), s.id) == Some(s)
    ensures other != s.id ==> FindById(Insert(store, s), other) == FindById(store, other)
  {
    var r := Insert(store, s);
    assert forall j :: 0 <= j < |store| ==> r[j] == store[j];
    assert r[|store|] == s;
    match IndexOf(store, other)
    case None =>
    case Some(k) =>
      assert r[k] == store[k];
  }

  /** After `save` the saved record is what its id finds, and every other id finds what it found before. */
  lemma SaveThenFind(store: seq<NewsSource>, s: NewsSource, other: int)
    ensures FindById(Save(store, s), s.id) == Some(s)
    ensures other != s.id ==> FindById(Save(store, s), other) == FindById(store, other)
  {
    var r := Save(store, s);
    match IndexOf(store, s.id)
    case Some(i) =>
      assert r[i] == s;
      if other != s.id {
        match IndexOf(store, other)
        case None =>
        case Some(k) => assert r[k] == store[k];
      }
    case None =>
      assert r[|store|] == s;
      assert forall j :: 0 <= j < |store| ==> r[j] == store[j];
      if other != s.id {
        match IndexOf(store, other)
        case None =>
        case Some(k) => assert r[k] == store[k];
      }
  }

  /** `deleteById` keeps the primary-key invariant. */
  lemma {:induction false} DeleteKeepsUnique(store: seq<NewsSource>, id: int)
    requires UniqueIds(store)
    ensures UniqueIds(DeleteById(store, id))
  {
    if |store| > 0 {
      var tail := store[1..];
      assert UniqueIds(tail) by {
        forall i, j | 0 <= i < j < |tail| ensures tail[i].id != tail[j].id {
          assert tail[i] == store[i + 1] && tail[j] == store[j + 1];
        }
      }
      DeleteKeepsUnique(tail, id);
      var rest := DeleteById(tail, id);
      if store[0].id != id {
        forall x | x in rest ensures x.id != store[0].id {
          var k :| 0 <= k < |tail| && tail[k] == x;
          assert store[k + 1] == x;
        }
      }
    }
  }

  /** After `deleteById` the id finds nothing, and every other id finds what it found before. */
  lemma DeleteThenFind(store: seq<NewsSource>, id: int, other: int)
    requires UniqueIds(store)
    ensures FindById(DeleteById(store, id), id) == None
    ensures other != id ==> FindById(DeleteById(store, id), other) == FindById(store, other)
  {
    var r := DeleteById(store, id);
    DeleteKeepsUnique(store, id);
    if other != id {
      match FindById(store, other)
      case None =>
        assert forall x :: x in r ==> x in store;
      case Some(s) =>
        assert s in r;
        FindStored(r, s);
    }
  }

  /** A record inserted at the end is listed last among its creator's records: the filter keeps stored order. */
  lemma {:induction false} FilterAppend(store: seq<NewsSource>, s: NewsSource, user: string)
    ensures FindAllByCreatedBy(store + [s], user)
         == FindAllByCreatedBy(store, user) + (if s.createdBy == Some(user) then [s] else [])
  {
    if |store| == 0 {
      assert store + [s] == [s];
    } else {
      assert (store + [s])[1..] == store[1..] + [s];
      FilterAppend(store[1..], s, user);
    }
  }

  /**
   * The scoped lookup (the first record with `id` among those created by `user`)
   * agrees with the global lookup followed by an ownership check.
   */
  lemma ScopedLookup(store: seq<NewsSource>, user: string, id: int)
    requires UniqueIds(store)
    ensures FindById(FindAllByCreatedBy(store, user), id)
         == (match FindById(store, id)
             case Some(s) => if s.createdBy == Some(user) then Some(s) else None
             case None => None)
  {
    var mine := FindAllByCreatedBy(store, user);
    match FindById(store, id)
    case None =>
      assert forall x :: x in mine ==> x in store;
    case Some(s) =>
      if s.createdBy == Some(user) {
        assert s in mine;
        match FindById(mine, id)
        case None =>
        case Some(t) =>
          assert t in store;
          FindStored(store, t);
      } else {
        match FindById(mine, id)
        case None =>
        case Some(t) =>
          assert t in store && t.createdBy == Some(user);
          FindStored(store, t);
      }
  }
}
