/** The refresh-token store the use case is given (IUsersTokensRepository), modelled as an
    in-memory table of UserTokens rows with a store-assigned id. */
module UsersTokens {
  import opened Wrappers

  /** One stored refresh token: the row's id, its owner, the token string and its expiry. */
  datatype UserTokens = UserTokens(id: nat, user_id: string, refresh_token: string, expires_date: int)

  /** The table's rows and the next id the store will assign. */
  datatype Store = Store(records: seq<UserTokens>, nextId: nat)

  /** A call the use case makes on the store, in the order it makes it: a lookup, which changes
      nothing, a delete by id or an insert. */
  datatype StoreCall =
    | Find(user_id: string, refresh_token: string)
    | Delete(id: nat)
    | Insert(user_id: string, refresh_token: string, expires_date: int)

  predicate Matches(x: UserTokens, user_id: string, refresh_token: string) {
    x.user_id == user_id && x.refresh_token == refresh_token
  }

  /** Every id is below nextId (so the next one is fresh) and no two rows share an id. */
  ghost predicate IdsFresh(s: Store) {
    && (forall i :: 0 <= i < |s.records| ==> s.records[i].id < s.nextId)
    && IdsDistinct(s.records)
  }

  /** No two rows share an id. */
  ghost predicate IdsDistinct(records: seq<UserTokens>) {
    forall i, j :: 0 <= i < j < |records| ==> records[i].id != records[j].id
  }

  /** No two rows hold the same token string. */
  ghost predicate UniqueTokens(records: seq<UserTokens>) {
    forall i, j :: 0 <= i < j < |records| ==> records[i].refresh_token != records[j].refresh_token
  }

  /** findByUserIdAndRefreshToken: some row owned by `user_id` holding exactly `refresh_token`,
      or None when there is none. A database gives no order, so which match is not promised. */
  function FindMatch(records: seq<UserTokens>, user_id: string, refresh_token: string): (r: Option<UserTokens>)
    ensures r.Some? ==> r.value in records && Matches(r.value, user_id, refresh_token)
    ensures r.None? <==> forall x :: x in records ==> !Matches(x, user_id, refresh_token)
  {
    if |records| == 0 then None
    else if Matches(records[0], user_id, refresh_token) then Some(records[0])
    else FindMatch(records[1..], user_id, refresh_token)
  }

  /** deleteById: the rows whose id differs from `id`, in their order. */
  function WithoutId(records: seq<UserTokens>, id: nat): (r: seq<UserTokens>)
    ensures forall x :: x in r <==> x in records && x.id != id
    ensures |r| <= |records|
  {
    if |records| == 0 then []
    else if records[0].id == id then WithoutId(records[1..], id)
    else [records[0]] + WithoutId(records[1..], id)
  }

  /** The store after one call: a lookup leaves it as it is, a delete drops the rows with that id,
      an insert appends a row with the next id and leaves the earlier rows in place. */
  function Apply(s: Store, call: StoreCall): (r: Store)
    ensures call.Find? ==> r == s
    ensures call.Delete? ==>
      && r.nextId == s.nextId
      && forall x :: x in r.records <==> x in s.records && x.id != call.id
    ensures call.Insert? ==>
      && r.nextId == s.nextId + 1
      && |r.records| == |s.records| + 1
      && r.records[..|s.records|] == s.records
      && r.records[|s.records|].id == s.nextId
      && Matches(r.records[|s.records|], call.user_id, call.refresh_token)
      && r.records[|s.records|].expires_date == call.expires_date
  {
    match call
    case Find(_, _) => s
    case Delete(id) => Store(WithoutId(s.records, id), s.nextId)
    case Insert(user_id, refresh_token, expires_date) =>
      Store(s.records + [UserTokens(s.nextId, user_id, refresh_token, expires_date)], s.nextId + 1)
  }

  /** The store after a sequence of calls, made in order. */
  function ApplyAll(s: Store, calls: seq<StoreCall>): Store
    decreases |calls|
  {
    if |calls| == 0 then s else ApplyAll(Apply(s, calls[0]), calls[1..])
  }

  /** Making one more call after a sequence of calls is applying it to the store they leave. */
  lemma {:induction false} ApplyAllAppend(s: Store, calls: seq<StoreCall>, call: StoreCall)
    ensures ApplyAll(s, calls + [call]) == Apply(ApplyAll(s, calls), call)
    decreases |calls|
  {
    if |calls| == 0 {
      assert [call][1..] == [];
      assert calls + [call] == [call];
    } else {
      assert (calls + [call])[1..] == calls[1..] + [call];
      ApplyAllAppend(Apply(s, calls[0]), calls[1..], call);
    }
  }

  /** Deleting an id no row has leaves the rows as they were. */
  lemma {:induction false} WithoutAbsentId(records: seq<UserTokens>, id: nat)
    requires forall x :: x in records ==> x.id != id
    ensures WithoutId(records, id) == records
  {
    if |records| > 0 {
      WithoutAbsentId(records[1..], id);
      assert records == [records[0]] + records[1..];
    }
  }

  /** Deleting an id that exactly one row has removes exactly one row. */
  lemma {:induction false} WithoutIdRemovesOne(records: seq<UserTokens>, id: nat)
    requires IdsDistinct(records)
    requires exists x :: x in records && x.id == id
    ensures |WithoutId(records, id)| == |records| - 1
  {
    if records[0].id == id {
      forall x | x in records[1..] ensures x.id != id {
        var k :| 0 <= k < |records[1..]| && records[1..][k] == x;
        assert records[k + 1] == x;
      }
      WithoutAbsentId(records[1..], id);
    } else {
      var x :| x in records && x.id == id;
      assert x in records[1..];
      WithoutIdRemovesOne(records[1..], id);
    }
  }

  /** Deleting keeps the ids of the remaining rows pairwise distinct. */
  lemma {:induction false} WithoutIdKeepsIdsDistinct(records: seq<UserTokens>, id: nat)
    requires IdsDistinct(records)
    ensures IdsDistinct(WithoutId(records, id))
  {
    if |records| > 0 {
      var rest := WithoutId(records[1..], id);
      WithoutIdKeepsIdsDistinct(records[1..], id);
      if records[0].id != id {
        var r := [records[0]] + rest;
        forall i, j | 0 <= i < j < |r| ensures r[i].id != r[j].id {
          if i == 0 {
            assert r[j] in rest;
            var k :| 0 <= k < |records[1..]| && records[1..][k] == r[j];
            assert records[k + 1] == r[j];
          } else {
            assert r[i] == rest[i - 1] && r[j] == rest[j - 1];
          }
        }
      }
    }
  }

  /** Deleting keeps the token strings of the remaining rows pairwise distinct. */
  lemma {:induction false} WithoutIdKeepsTokensUnique(records: seq<UserTokens>, id: nat)
    requires UniqueTokens(records)
    ensures UniqueTokens(WithoutId(records, id))
  {
    if |records| > 0 {
      var rest := WithoutId(records[1..], id);
      WithoutIdKeepsTokensUnique(records[1..], id);
      if records[0].id != id {
        var r := [records[0]] + rest;
        forall i, j | 0 <= i < j < |r| ensures r[i].refresh_token != r[j].refresh_token {
          if i == 0 {
            assert r[j] in rest;
            var k :| 0 <= k < |records[1..]| && records[1..][k] == r[j];
            assert records[k + 1] == r[j];
          } else {
            assert r[i] == rest[i - 1] && r[j] == rest[j - 1];
          }
        }
      }
    }
  }

  /** Every change keeps the ids fresh and distinct. */
  lemma ApplyKeepsIdsFresh(s: Store, call: StoreCall)
    requires IdsFresh(s)
    ensures IdsFresh(Apply(s, call))
  {
    match call
    case Find(_, _) =>
    case Delete(id) =>
      WithoutIdKeepsIdsDistinct(s.records, id);
      var r := WithoutId(s.records, id);
      forall i | 0 <= i < |r| ensures r[i].id < s.nextId {
        assert r[i] in s.records;
      }
    case Insert(_, _, _) =>
  }

  /** The in-memory token store: the rows, the id counter, and a ghost log of every call made on
      it, lookups included, so that callers can state which calls they made and in which order. */
  class UsersTokensRepository {
    var records: seq<UserTokens>
    var nextId: nat
    ghost var log: seq<StoreCall>

    ghost predicate Valid()
      reads this
    {
      IdsFresh(State())
    }

    /** The abstract value of the store. */
    function State(): Store
      reads this
    {
      Store(records, nextId)
    }

    constructor ()
      ensures Valid() && State() == Store([], 0) && log == []
    {
      records := [];
      nextId := 0;
      log := [];
    }

    method FindByUserIdAndRefreshToken(user_id: string, refresh_token: string) returns (user_token: Option<UserTokens>)
      modifies this`log
      ensures user_token.Some? ==> user_token.value in records && Matches(user_token.value, user_id, refresh_token)
      ensures user_token.None? <==> forall x :: x in records ==> !Matches(x, user_id, refresh_token)
      ensures user_token == FindMatch(records, user_id, refresh_token)
      ensures log == old(log) + [Find(user_id, refresh_token)]
    {
      user_token := FindMatch(records, user_id, refresh_token);
      log := log + [Find(user_id, refresh_token)];
    }

    method DeleteById(id: nat)
      requires Valid()
      modifies this
      ensures Valid()
      ensures State() == Apply(old(State()), Delete(id))
      ensures log == old(log) + [Delete(id)]
    {
      ApplyKeepsIdsFresh(State(), Delete(id));
      records := WithoutId(records, id);
      log := log + [Delete(id)];
    }

    method Create(expires_date: int, refresh_token: string, user_id: string) returns (user_token: UserTokens)
      requires Valid()
      modifies this
      ensures Valid()
      ensures user_token == UserTokens(old(nextId), user_id, refresh_token, expires_date)
      ensures State() == Apply(old(State()), Insert(user_id, refresh_token, expires_date))
      ensures log == old(log) + [Insert(user_id, refresh_token, expires_date)]
    {
      ApplyKeepsIdsFresh(State(), Insert(user_id, refresh_token, expires_date));
      user_token := UserTokens(nextId, user_id, refresh_token, expires_date);
      records := records + [user_token];
      nextId := nextId + 1;
      log := log + [Insert(user_id, refresh_token, expires_date)];
    }
  }
}
