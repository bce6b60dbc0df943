/**
 * The News collection as the News service sees it through its repository: an
 * ordered sequence of `UserNews` units, each a user id (the document key) and
 * a list of news documents, either of which may be `null`.
 */
module NewsRepository {
  import opened Outcomes
  import opened NewsModel

  datatype UserNews = UserNews(userId: Option<string>, newslist: Option<seq<NewsDocument>>)

  /** The collection's key invariant: no two units share a user id. */
  ghost predicate UniqueUsers(units: seq<UserNews>)
  {
    forall i, j :: 0 <= i < j < |units| && units[i].userId.Some? ==> units[i].userId != units[j].userId
  }

  /** `findById(user)`: the position of the unit keyed by `user`. */
  function IndexOfUser(units: seq<UserNews>, user: string): (r: Option<nat>)
    ensures r.Some? ==> r.value < |units| && units[r.value].userId == Some(user)
    ensures r.Some? ==> forall j :: 0 <= j < r.value ==> units[j].userId != Some(user)
    ensures r.None? ==> forall j :: 0 <= j < |units| ==> units[j].userId != Some(user)
  {
    if |units| == 0 then None
    else if units[0].userId == Some(user) then Some(0)
    else match IndexOfUser(units[1..], user)
      case None => None
      case Some(k) => Some(k + 1)
  }

  /** `delete`/`deleteById` of the unit at position `i`. */
  function RemoveAt(units: seq<UserNews>, i: nat): (r: seq<UserNews>)
    requires i < |units|
    ensures |r| == |units| - 1
    ensures forall j :: 0 <= j < |r| ==> r[j] == (if j < i then units[j] else units[j + 1])
  {
    units[..i] + units[i + 1..]
  }

  /** Removing a unit keeps the key invariant. */
  lemma RemoveKeepsUnique(units: seq<UserNews>, i: nat)
    requires UniqueUsers(units) && i < |units|
    ensures UniqueUsers(RemoveAt(units, i))
  {
    var r := RemoveAt(units, i);
    forall a, b | 0 <= a < b < |r| && r[a].userId.Some? ensures r[a].userId != r[b].userId {
      var a', b' := if a < i then a else a + 1, if b < i then b else b + 1;
      assert r[a] == units[a'] && r[b] == units[b'];
    }
  }

  /** Overwriting a unit with one of the same key keeps the key invariant and every lookup. */
  lemma ReplaceKeepsLookup(units: seq<UserNews>, i: nat, v: UserNews, user: string)
    requires i < |units| && v.userId == units[i].userId
    ensures UniqueUsers(units) ==> UniqueUsers(units[i := v])
    ensures IndexOfUser(units[i := v], user) == IndexOfUser(units, user)
  {
    var r := units[i := v];
    match IndexOfUser(units, user)
    case None =>
    case Some(k) =>
      assert r[k].userId == Some(user);
  }

  /** Once the unit keyed by `user` is removed, looking `user` up finds nothing. */
  lemma RemovedUserIsGone(units: seq<UserNews>, i: nat, user: string)
    requires UniqueUsers(units) && i < |units| && units[i].userId == Some(user)
    ensures IndexOfUser(RemoveAt(units, i), user) == None
  {
    var r := RemoveAt(units, i);
    forall j | 0 <= j < |r| ensures r[j].userId != Some(user) {
      if j < i {
        assert r[j] == units[j];
      } else {
        assert r[j] == units[j + 1];
      }
    }
  }

  /** Removing one user's unit leaves every other user's unit where lookups find it, shifted past the gap. */
  lemma RemoveKeepsOtherUsers(units: seq<UserNews>, i: nat, other: string)
    requires i < |units| && units[i].userId != Some(other)
    ensures IndexOfUser(RemoveAt(units, i), other)
         == (match IndexOfUser(units, other)
             case None => None
             case Some(m) => Some(if m < i then m else m - 1))
  {
    var r := RemoveAt(units, i);
    match IndexOfUser(units, other)
    case None =>
      forall j | 0 <= j < |r| ensures r[j].userId != Some(other) {
        assert r[j] == units[if j < i then j else j + 1];
      }
    case Some(m) =>
      var k := if m < i then m else m - 1;
      assert r[k] == units[m];
      forall j | 0 <= j < k ensures r[j].userId != Some(other) {
        assert r[j] == units[if j < i then j else j + 1];
      }
  }
}
