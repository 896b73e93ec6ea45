/** `Adapter`: custom-audience management for one ad account. The account's
    audiences, as `get_custom_audiences` lists them, are the field `audiences`;
    every request sent to the ads service is appended to `requests`. */
module Audiences {
  import opened Wrappers
  import opened Strings
  import opened Chunking
  import opened Customers

  datatype Audience = Audience(name: string, id: string)

  /** The requests the adapter sends. */
  datatype Request =
    | Create(name: string, description: Option<string>)
    | Delete(id: string)
    | AddUsers(id: string, batch: seq<Email>)
    | RemoveUsers(id: string, batch: seq<Email>)

  datatype AdapterError =
    | AudienceNotFound   // `_get_audience`: `audience_id` never bound (UnboundLocalError)
    | NameTaken          // `create_audience`: ValueError
    | NameMissing        // `delete_audience`: ValueError

  /** The add endpoint takes about 10000 users per call. */
  const ADD_LIMIT: nat := 10000
  /** `_batch_users`' default size, which `add_users` uses. */
  const ADD_BATCH: nat := 2500
  /** The remove endpoint's limit, also its batch size. */
  const REMOVE_LIMIT: nat := 500

  function Names(auds: seq<Audience>): seq<string>
  {
    seq(|auds|, i requires 0 <= i < |auds| => auds[i].name)
  }

  /** The index of the last audience called `name`: the one whose id survives the
      loop that keeps overwriting it. */
  function LastMatch(auds: seq<Audience>, name: string): (r: Option<nat>)
    ensures r.None? <==> name !in Names(auds)
    ensures r.Some? ==>
      && r.value < |auds| && auds[r.value].name == name
      && forall j :: r.value < j < |auds| ==> auds[j].name != name
    decreases |auds|
  {
    if auds == [] then None
    else if auds[|auds| - 1].name == name then
      assert Names(auds)[|auds| - 1] == name;
      Some(|auds| - 1)
    else
      var r := LastMatch(auds[..|auds| - 1], name);
      assert Names(auds) == Names(auds[..|auds| - 1]) + [auds[|auds| - 1].name];
      r
  }

  /** What remains on the account after the audience with id `id` is deleted. */
  function Without(auds: seq<Audience>, id: string): (r: seq<Audience>)
    ensures forall a :: a in r <==> a in auds && a.id != id
    ensures |r| <= |auds|
    decreases |auds|
  {
    if auds == [] then []
    else if auds[0].id == id then Without(auds[1..], id)
    else [auds[0]] + Without(auds[1..], id)
  }

  predicate NamesUnique(auds: seq<Audience>)
  {
    forall i, j :: 0 <= i < j < |auds| ==> auds[i].name != auds[j].name
  }

  /** `_batch_users(obj, size)`. */
  function BatchUsers(users: seq<Email>, size: nat): (r: seq<seq<Email>>)
    requires size > 0
    ensures Concat(r) == users
    ensures forall k :: 0 <= k < |r| ==> 0 < |r[k]| <= size
    ensures r == [] <==> users == []
  {
    ChunksConcat(users, size);
    Chunks(users, size)
  }

  /** The batches `add_users` sends for a non-empty list: the list itself up to
      10000 users, otherwise slices of 2500. */
  function AddBatches(users: seq<Email>): seq<seq<Email>>
  {
    if |users| > ADD_LIMIT then BatchUsers(users, ADD_BATCH) else [users]
  }

  /** The batches `remove_users` sends for a non-empty list: the list itself up to
      500 users, otherwise slices of 500. */
  function RemoveBatches(users: seq<Email>): seq<seq<Email>>
  {
    if |users| > REMOVE_LIMIT then BatchUsers(users, REMOVE_LIMIT) else [users]
  }

  function AddRequests(id: string, batches: seq<seq<Email>>): seq<Request>
  {
    seq(|batches|, k requires 0 <= k < |batches| => AddUsers(id, batches[k]))
  }

  function RemoveRequests(id: string, batches: seq<seq<Email>>): seq<Request>
  {
    seq(|batches|, k requires 0 <= k < |batches| => RemoveUsers(id, batches[k]))
  }

  /** Every user is sent exactly once, in order, and no call exceeds the limit of
      its endpoint. There is one call exactly when the list fits the endpoint,
      otherwise one per slice, `ceil(n / size)` of them. */
  lemma AddBatchesCover(users: seq<Email>)
    requires users != []
    ensures Concat(AddBatches(users)) == users
    ensures forall k :: 0 <= k < |AddBatches(users)| ==> 0 < |AddBatches(users)[k]| <= ADD_LIMIT
    ensures |AddBatches(users)| == 1 <==> |users| <= ADD_LIMIT
    ensures |users| > ADD_LIMIT ==> |AddBatches(users)| == (|users| + ADD_BATCH - 1) / ADD_BATCH
  {
    if |users| <= ADD_LIMIT {
      assert Concat([users]) == users + Concat<Email>([]);
    } else {
      ChunksCount(users, ADD_BATCH);
    }
  }

  lemma RemoveBatchesCover(users: seq<Email>)
    requires users != []
    ensures Concat(RemoveBatches(users)) == users
    ensures forall k :: 0 <= k < |RemoveBatches(users)| ==> 0 < |RemoveBatches(users)[k]| <= REMOVE_LIMIT
    ensures |RemoveBatches(users)| == 1 <==> |users| <= REMOVE_LIMIT
    ensures |users| > REMOVE_LIMIT ==> |RemoveBatches(users)| == (|users| + REMOVE_LIMIT - 1) / REMOVE_LIMIT
  {
    if |users| <= REMOVE_LIMIT {
      assert Concat([users]) == users + Concat<Email>([]);
    } else {
      ChunksCount(users, REMOVE_LIMIT);
    }
  }

  /** 12000 users go out in five calls of 2500, 2500, 2500, 2500 and 2000. */
  lemma TwelveThousandAdds(users: seq<Email>)
    requires |users| == 12000
    ensures |AddBatches(users)| == 5
    ensures |AddBatches(users)[4]| == 2000
  {
    ChunksCount(users, ADD_BATCH);
    ChunkAt(users, ADD_BATCH, 4);
  }

  /** With unique names, deleting the last audience called `name` removes the name. */
  lemma {:induction false} DeleteRemovesName(auds: seq<Audience>, name: string)
    requires NamesUnique(auds) && LastMatch(auds, name).Some?
    ensures name !in Names(Without(auds, auds[LastMatch(auds, name).value].id))
  {
    var i := LastMatch(auds, name).value;
    var rest := Without(auds, auds[i].id);
    forall j | 0 <= j < |rest|
      ensures Names(rest)[j] != name
    {
      assert rest[j] in auds && rest[j].id != auds[i].id;
      var k :| 0 <= k < |auds| && auds[k] == rest[j];
      assert k != i;
    }
  }

  class Adapter {
    var audiences: seq<Audience>
    var requests: seq<Request>

    /** `Adapter(account)`: the account's audiences as the service lists them. */
    constructor (audiences: seq<Audience>)
      ensures this.audiences == audiences && requests == []
    {
      this.audiences := audiences;
      requests := [];
    }

    /** `_get_audience(name)`: walks the list, keeping the id of every audience
        called `name`; the last one wins, and none at all fails. */
    method GetAudience(name: string) returns (r: Result<string, AdapterError>)
      ensures r.Err? <==> name !in Names(audiences)
      ensures match LastMatch(audiences, name)
        case None => r == Err(AudienceNotFound)
        case Some(i) => r == Ok(audiences[i].id)
    {
      var found: Option<string> := None;
      var k := 0;
      while k < |audiences|
        invariant 0 <= k <= |audiences|
        invariant match LastMatch(audiences[..k], name)
          case None => found.None?
          case Some(i) => found == Some(audiences[i].id)
      {
        assert audiences[..k + 1][..k] == audiences[..k];
        if audiences[k].name == name {
          found := Some(audiences[k].id);
        }
        k := k + 1;
      }
      assert audiences[..k] == audiences;
      if found.None? {
        return Err(AudienceNotFound);
      }
      r := Ok(found.value);
    }

    /** `create_audience(name, desc)`: refuses a name already on the account;
        otherwise asks for a new custom audience, with the description only when
        one is given and non-empty. The service lists it under `newId`. */
    method CreateAudience(name: string, desc: Option<string>, newId: string)
      returns (r: Outcome<AdapterError>)
      modifies this
      ensures name in Names(old(audiences)) ==>
        r == Fail(NameTaken) && audiences == old(audiences) && requests == old(requests)
      ensures name !in Names(old(audiences)) ==>
        && r == Pass
        && audiences == old(audiences) + [Audience(name, newId)]
        && requests == old(requests) + [Create(name, if desc.Some? && desc.value != [] then desc else None)]
        && LastMatch(audiences, name) == Some(|old(audiences)|)
    {
      if name in Names(audiences) {
        return Fail(NameTaken);
      }
      var description := None;
      if desc.Some? && desc.value != [] {
        description := desc;
      }
      requests := requests + [Create(name, description)];
      audiences := audiences + [Audience(name, newId)];
      r := Pass;
    }

    /** `delete_audience(name)`: refuses a name not on the account; otherwise
        deletes the audience with the id of the last entry called `name`. */
    method DeleteAudience(name: string) returns (r: Outcome<AdapterError>)
      modifies this
      ensures name !in Names(old(audiences)) ==>
        r == Fail(NameMissing) && audiences == old(audiences) && requests == old(requests)
      ensures name in Names(old(audiences)) ==>
        var id := old(audiences)[LastMatch(old(audiences), name).value].id;
        && r == Pass
        && requests == old(requests) + [Delete(id)]
        && audiences == Without(old(audiences), id)
    {
      if name !in Names(audiences) {
        return Fail(NameMissing);
      }
      var found := GetAudience(name);
      var id := found.value;
      requests := requests + [Delete(id)];
      audiences := Without(audiences, id);
      r := Pass;
    }

    /** `add_users(name, users)`: nothing for an empty list; otherwise one add
        request per batch of `AddBatches`, after looking the audience up. */
    method AddUsersTo(name: string, users: seq<Email>) returns (r: Outcome<AdapterError>)
      modifies this
      ensures audiences == old(audiences)
      ensures users == [] ==> r == Pass && requests == old(requests)
      ensures users != [] ==>
        match LastMatch(audiences, name)
        case None => r == Fail(AudienceNotFound) && requests == old(requests)
        case Some(i) => r == Pass && requests == old(requests) + AddRequests(audiences[i].id, AddBatches(users))
    {
      if |users| == 0 {
        return Pass;
      }
      var target := GetAudience(name);
      if target.Err? {
        return Fail(target.error);
      }
      var id := target.value;
      if |users| > ADD_LIMIT {
        var batches := BatchUsers(users, ADD_BATCH);
        Send(id, batches, true);
      } else {
        requests := requests + [AddUsers(id, users)];
      }
      r := Pass;
    }

    /** `remove_users(name, users)`: nothing for an empty list; otherwise one
        remove request per batch of `RemoveBatches`. */
    method RemoveUsersFrom(name: string, users: seq<Email>) returns (r: Outcome<AdapterError>)
      modifies this
      ensures audiences == old(audiences)
      ensures users == [] ==> r == Pass && requests == old(requests)
      ensures users != [] ==>
        match LastMatch(audiences, name)
        case None => r == Fail(AudienceNotFound) && requests == old(requests)
        case Some(i) => r == Pass && requests == old(requests) + RemoveRequests(audiences[i].id, RemoveBatches(users))
    {
      if |users| == 0 {
        return Pass;
      }
      var target := GetAudience(name);
      if target.Err? {
        return Fail(target.error);
      }
      var id := target.value;
      if |users| > REMOVE_LIMIT {
        var batches := BatchUsers(users, REMOVE_LIMIT);
        Send(id, batches, false);
      } else {
        requests := requests + [RemoveUsers(id, users)];
      }
      r := Pass;
    }

    /** The `for batch in batches` loop: one request per batch, in order. */
    method Send(id: string, batches: seq<seq<Email>>, add: bool)
      modifies this
      ensures audiences == old(audiences)
      ensures requests == old(requests) + (if add then AddRequests(id, batches) else RemoveRequests(id, batches))
    {
      for k := 0 to |batches|
        invariant audiences == old(audiences)
        invariant requests == old(requests) + (if add then AddRequests(id, batches[..k]) else RemoveRequests(id, batches[..k]))
      {
        if add {
          requests := requests + [AddUsers(id, batches[k])];
        } else {
          requests := requests + [RemoveUsers(id, batches[k])];
        }
      }
      assert batches[..|batches|] == batches;
    }
  }
}
