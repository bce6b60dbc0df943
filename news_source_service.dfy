/**
 * The NewsSource service: adds, deletes, updates and looks up news sources in
 * the repository it was constructed with. Each operation is one
 * read-modify-write of the collection held in `repo`.
 */
module NewsSourceServices {
  import opened Outcomes
  import opened NewsSourceRepository

  class NewsSourceService {
    /** The repository's collection, in stored order. */
    var repo: seq<NewsSource>

    ghost predicate Valid()
      reads this
    {
      UniqueIds(repo)
    }

    /** The service over an existing collection. */
    constructor (repo: seq<NewsSource>)
      requires UniqueIds(repo)
      ensures Valid() && this.repo == repo
    {
      this.repo := repo;
    }

    /**
     * `addNewsSource`: inserts `s` and answers true when its id is free;
     * otherwise answers false and leaves the collection as it was.
     */
    method AddNewsSource(s: NewsSource) returns (added: bool)
      requires Valid()
      modifies this
      ensures Valid()
      ensures added <==> !ExistsById(old(repo), s.id)
      ensures added ==> repo == Insert(old(repo), s)
      ensures !added ==> repo == old(repo)
    {
      if !ExistsById(repo, s.id) {
        repo := Insert(repo, s);
        // insert hands back the stored entity, never null
        return true;
      }
      return false;
    }

    /**
     * `deleteNewsSource`: for a stored id, saves the record back unchanged, deletes
     * it and answers true; for an absent id `Optional.get` throws, the catch
     * answers false, and nothing was written.
     */
    method DeleteNewsSource(id: int) returns (deleted: bool)
      requires Valid()
      modifies this
      ensures Valid()
      ensures deleted <==> ExistsById(old(repo), id)
      ensures deleted ==> repo == DeleteById(old(repo), id)
      ensures !deleted ==> repo == old(repo)
    {
      var found := FindById(repo, id);
      if found.None? {
        return false;
      }
      assert repo[IndexOf(repo, id).value := found.value] == repo;
      repo := Save(repo, found.value);  // writes back the record it just read
      repo := DeleteById(repo, id);
      DeleteKeepsUnique(old(repo), id);
      return true;
    }

    /**
     * `updateNewsSource`: copies creator, description and name from `src` onto the
     * record stored under `id` (the id itself and `src.id` play no part), saves it
     * and returns it. For an absent id `findById(...).get()` throws
     * NoSuchElementException, which the method does not catch; the null check that
     * would throw NewsSourceNotFoundException can never fire.
     */
    method UpdateNewsSource(src: NewsSource, id: int) returns (r: Outcome<NewsSource>)
      requires Valid()
      modifies this
      ensures Valid()
      ensures !ExistsById(old(repo), id) ==> r == Threw(NoSuchElement) && repo == old(repo)
      ensures ExistsById(old(repo), id) ==>
                r.Returned?
                && r.value == FindById(old(repo), id).value.(createdBy := src.createdBy, desc := src.desc, name := src.name)
                && r.value.id == id
                && repo == Save(old(repo), r.value)
    {
      var found := FindById(repo, id);
      if found.None? {
        return Threw(NoSuchElement);
      }
      // the three setters on the fetched copy
      var updated := found.value.(createdBy := src.createdBy, desc := src.desc, name := src.name);
      repo := Save(repo, updated);
      return Returned(updated);
    }

    /**
     * `getNewsSourceById`: scans the records created by `userId` and returns the
     * first whose id is `id`, or null. It neither throws nor writes.
     */
    method GetNewsSourceById(userId: string, id: int) returns (r: Option<NewsSource>)
      ensures r == FindById(FindAllByCreatedBy(repo, userId), id)
      ensures r.Some? ==> r.value in repo && r.value.id == id && r.value.createdBy == Some(userId)
    {
      var mine := FindAllByCreatedBy(repo, userId);
      if |mine| != 0 {
        var k := 0;
        while k < |mine|
          invariant 0 <= k <= |mine|
          invariant forall j :: 0 <= j < k ==> mine[j].id != id
        {
          if mine[k].id == id {
            return Some(mine[k]);
          }
          k := k + 1;
        }
      }
      return None;
    }

    /**
     * `getAllNewsSourceByUserId`: the records created by `createdBy`, each once and
     * in stored order, empty when there is none.
     */
    method GetAllNewsSourceByUserId(createdBy: string) returns (r: seq<NewsSource>)
      ensures r == FindAllByCreatedBy(repo, createdBy)
      ensures forall s :: s in r <==> s in repo && s.createdBy == Some(createdBy)
      ensures r == [] <==> forall s :: s in repo ==> s.createdBy != Some(createdBy)
    {
      r := FindAllByCreatedBy(repo, createdBy);
      if r != [] {
        assert r[0] in r;
      }
    }
  }
}
