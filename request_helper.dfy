/**
 * The request de-duplication of the dashboard's stores: a fetch that is
 * already in flight is joined instead of repeated, and a cached value is
 * served unless a refresh is forced.
 *
 * Each async call is split at its one `await`: `Begin` runs up to it and
 * `Settle` runs from the response on. Between the two, other calls may begin.
 * A callback invocation is identified by its ordinal, `callbacks` counting the
 * ones made so far. JavaScript truthiness of a cached value is the parameter
 * `truthy`.
 */
module RequestHelper {
  import opened Wrappers

  /** What a call does up to its `await`. */
  datatype Begun<T> =
    /** A request for the entry is in flight: wait for it and return its data. */
    | AwaitInFlight(request: nat)
    /** A cached value is returned at once. */
    | FromCache(value: T)
    /** The callback was invoked; the call waits for this request. */
    | Issued(request: nat)

  /** The `promiseMap` and `list` records of a store, and the number of callbacks invoked. */
  datatype Keyed<K, T> = Keyed(promiseMap: map<K, nat>, list: map<K, T>, callbacks: nat)

  /** The requests in flight are earlier callbacks, each entry its own. */
  ghost predicate Valid<K(!new), T>(st: Keyed<K, T>)
  {
    (forall k :: k in st.promiseMap ==> st.promiseMap[k] < st.callbacks) &&
    (forall k1, k2 :: k1 in st.promiseMap && k2 in st.promiseMap && k1 != k2 ==> st.promiseMap[k1] != st.promiseMap[k2])
  }

  /** `asyncRequestAction` up to its `await`. */
  function KeyedBegin<K(==), T>(st: Keyed<K, T>, id: K, force: bool, truthy: T -> bool): (res: (Keyed<K, T>, Begun<T>))
    ensures res.1.AwaitInFlight? <==> id in st.promiseMap
    ensures res.1.AwaitInFlight? ==> res.1.request == st.promiseMap[id]
    ensures res.1.FromCache? <==> id !in st.promiseMap && id in st.list && truthy(st.list[id]) && !force
    ensures res.1.FromCache? ==> res.1.value == st.list[id]
    ensures !res.1.Issued? ==> res.0 == st
    ensures res.1.Issued? ==> (res.1.request == st.callbacks &&
      res.0 == Keyed(st.promiseMap[id := st.callbacks], st.list, st.callbacks + 1))
  {
    if id in st.promiseMap then (st, AwaitInFlight(st.promiseMap[id]))
    else if id in st.list && truthy(st.list[id]) && !force then (st, FromCache(st.list[id]))
    else (st.(promiseMap := st.promiseMap[id := st.callbacks], callbacks := st.callbacks + 1), Issued(st.callbacks))
  }

  /**
   * `asyncRequestAction` from the response of its own request on: the data
   * is cached and returned, an error leaves the cache alone and propagates;
   * either way the entry is no longer in flight.
   */
  function KeyedSettle<K(==), T, E>(st: Keyed<K, T>, id: K, response: Result<T, E>): (res: (Keyed<K, T>, Result<T, E>))
    ensures res.1 == response
    ensures res.0.promiseMap == st.promiseMap - {id} && res.0.callbacks == st.callbacks
    ensures response.Ok? ==> res.0.list == st.list[id := response.value]
    ensures response.Err? ==> res.0.list == st.list
  {
    var cleared := st.promiseMap - {id};
    match response
    case Ok(data) => (st.(promiseMap := cleared, list := st.list[id := data]), Ok(data))
    case Err(e) => (st.(promiseMap := cleared), Err(e))
  }

  /** Both halves keep the requests in flight apart, and a new request is one not in flight. */
  lemma KeepsValid<K(!new), T, E>(st: Keyed<K, T>, id: K, force: bool, truthy: T -> bool, response: Result<T, E>)
    requires Valid(st)
    ensures Valid(KeyedBegin(st, id, force, truthy).0)
    ensures Valid(KeyedSettle(st, id, response).0)
    ensures var (_, o) := KeyedBegin(st, id, force, truthy);
      o.Issued? ==> forall k :: k in st.promiseMap ==> st.promiseMap[k] != o.request
  {
  }

  /** The keyed variant touches only the entries of `id`. */
  lemma OnlyTheEntry<K(!new), T, E>(st: Keyed<K, T>, id: K, other: K, force: bool, truthy: T -> bool, response: Result<T, E>)
    requires other != id
    ensures var (b, _) := KeyedBegin(st, id, force, truthy);
      (other in b.promiseMap <==> other in st.promiseMap) && (other in st.promiseMap ==> b.promiseMap[other] == st.promiseMap[other]) &&
      (other in b.list <==> other in st.list) && (other in st.list ==> b.list[other] == st.list[other])
    ensures var (s, _) := KeyedSettle(st, id, response);
      (other in s.promiseMap <==> other in st.promiseMap) && (other in st.promiseMap ==> s.promiseMap[other] == st.promiseMap[other]) &&
      (other in s.list <==> other in st.list) && (other in st.list ==> s.list[other] == st.list[other])
  {
  }

  /** A second call while the first is in flight joins it, forced or not, and invokes no callback. */
  lemma JoinsInFlight<K(!new), T>(st: Keyed<K, T>, id: K, force1: bool, force2: bool, truthy: T -> bool)
    ensures var (st1, o1) := KeyedBegin(st, id, force1, truthy);
      o1.Issued? ==> KeyedBegin(st1, id, force2, truthy) == (st1, AwaitInFlight(o1.request))
  {
  }

  /**
   * After a successful fetch, an unforced call gets the data from the cache
   * without a callback if it is truthy, and fetches again if it is not.
   */
  lemma CachedAfterFetch<K(!new), T, E>(st: Keyed<K, T>, id: K, force: bool, truthy: T -> bool, data: T)
    ensures var (st1, o1) := KeyedBegin(st, id, force, truthy);
      var (st2, r) := KeyedSettle<K, T, E>(st1, id, Ok(data));
      o1.Issued? ==>
        r == Ok(data) &&
        (truthy(data) ==> KeyedBegin(st2, id, false, truthy) == (st2, FromCache(data))) &&
        (!truthy(data) ==> KeyedBegin(st2, id, false, truthy).1 == Issued(st.callbacks + 1))
  {
  }

  /** A failed fetch keeps what was cached before, and the next unforced call serves it or fetches again. */
  lemma FailureKeepsCache<K(!new), T, E>(st: Keyed<K, T>, id: K, truthy: T -> bool, err: E)
    requires id !in st.promiseMap
    ensures var (st1, o1) := KeyedBegin(st, id, true, truthy);
      var (st2, r) := KeyedSettle<K, T, E>(st1, id, Err(err));
      o1.Issued? && r == Err(err) && st2.list == st.list && id !in st2.promiseMap &&
      KeyedBegin(st2, id, false, truthy).1 ==
        (if id in st.list && truthy(st.list[id]) then FromCache(st.list[id]) else Issued(st.callbacks + 1))
  {
  }

  /** A forced call refetches over a cached value, but a default call does not. */
  lemma ForceRefetches<K(!new), T>(st: Keyed<K, T>, id: K, truthy: T -> bool)
    requires id !in st.promiseMap && id in st.list && truthy(st.list[id])
    ensures KeyedBegin(st, id, true, truthy).1 == Issued(st.callbacks)
    ensures KeyedBegin(st, id, false, truthy).1 == FromCache(st.list[id])
  {
  }

  /** A store holding the records of the keyed variant. */
  class KeyedStore<K(==), T> {
    var promiseMap: map<K, nat>
    var list: map<K, T>
    var callbacks: nat

    constructor ()
      ensures promiseMap == map[] && list == map[] && callbacks == 0
    {
      promiseMap := map[];
      list := map[];
      callbacks := 0;
    }

    function State(): Keyed<K, T>
      reads this
    {
      Keyed(promiseMap, list, callbacks)
    }

    /** The call up to its `await`. */
    method Begin(id: K, force: bool, truthy: T -> bool) returns (o: Begun<T>)
      modifies this
      ensures (State(), o) == KeyedBegin(old(State()), id, force, truthy)
    {
      if id in promiseMap {
        return AwaitInFlight(promiseMap[id]);
      }
      if id in list && truthy(list[id]) && !force {
        return FromCache(list[id]);
      }
      o := Issued(callbacks);
      promiseMap := promiseMap[id := callbacks];
      callbacks := callbacks + 1;
    }

    /** The call from its own request's response on: the `try`/`finally` around the `await`. */
    method Settle<E>(id: K, response: Result<T, E>) returns (r: Result<T, E>)
      modifies this
      ensures (State(), r) == KeyedSettle(old(State()), id, response)
    {
      if response.Ok? {
        list := list[id := response.value];
      }
      promiseMap := promiseMap - {id};
      if response.Err? {
        return Err(response.error);
      }
      return Ok(list[id]);
    }
  }

  /** The `promise` and `list` a store hands to the list variant, and the number of callbacks invoked. */
  datatype Single<T> = Single(promise: Option<nat>, list: Option<T>, callbacks: nat)

  /** `asyncRequestActionList` up to its `await`. */
  function ListBegin<T>(st: Single<T>, force: bool, truthy: T -> bool): (res: (Single<T>, Begun<T>))
    ensures res.1.AwaitInFlight? <==> st.promise.Some?
    ensures res.1.FromCache? <==> st.promise.None? && st.list.Some? && truthy(st.list.value) && !force
    ensures !res.1.Issued? ==> res.0 == st
  {
    if st.promise.Some? then (st, AwaitInFlight(st.promise.value))
    else if st.list.Some? && truthy(st.list.value) && !force then (st, FromCache(st.list.value))
    else (Single(Some(st.callbacks), st.list, st.callbacks + 1), Issued(st.callbacks))
  }

  /** `asyncRequestActionList` from its own response on: `setList` on success, `setPromise(undefined)` always. */
  function ListSettle<T, E>(st: Single<T>, response: Result<T, E>): (res: (Single<T>, Result<T, E>))
    ensures res.1 == response && res.0.promise.None? && res.0.callbacks == st.callbacks
    ensures res.0.list == (if response.Ok? then Some(response.value) else st.list)
  {
    match response
    case Ok(data) => (Single(None, Some(data), st.callbacks), Ok(data))
    case Err(e) => (st.(promise := None), Err(e))
  }

  /** The single slot seen as the entry `id` of the keyed records. */
  function AsKeyed<K(==), T>(st: Single<T>, id: K): Keyed<K, T>
  {
    Keyed(if st.promise.Some? then map[id := st.promise.value] else map[],
      if st.list.Some? then map[id := st.list.value] else map[],
      st.callbacks)
  }

  /** The list variant behaves as the keyed variant does on a store with the one key. */
  lemma ListIsKeyed<K(!new), T, E>(st: Single<T>, id: K, force: bool, truthy: T -> bool, response: Result<T, E>)
    ensures var (b, o) := ListBegin(st, force, truthy);
      KeyedBegin(AsKeyed(st, id), id, force, truthy) == (AsKeyed(b, id), o)
    ensures var (s, r) := ListSettle(st, response);
      KeyedSettle(AsKeyed(st, id), id, response) == (AsKeyed(s, id), r)
  {
    var k := AsKeyed(st, id);
    var (b, o) := ListBegin(st, force, truthy);
    if o.Issued? {
      assert k.promiseMap[id := st.callbacks] == map[id := st.callbacks];
    }
    var (s, r) := ListSettle(st, response);
    assert k.promiseMap - {id} == map[];
    if response.Ok? {
      assert k.list[id := response.value] == map[id := response.value];
    }
  }

  /** A store holding the state of the list variant; `setPromise` and `setList` assign its fields. */
  class ListStore<T> {
    var promise: Option<nat>
    var list: Option<T>
    var callbacks: nat

    constructor ()
      ensures promise == None && list == None && callbacks == 0
    {
      promise := None;
      list := None;
      callbacks := 0;
    }

    function State(): Single<T>
      reads this
    {
      Single(promise, list, callbacks)
    }

    method Begin(force: bool, truthy: T -> bool) returns (o: Begun<T>)
      modifies this
      ensures (State(), o) == ListBegin(old(State()), force, truthy)
    {
      if promise.Some? {
        return AwaitInFlight(promise.value);
      }
      if list.Some? && truthy(list.value) && !force {
        return FromCache(list.value);
      }
      var localPromise := callbacks;
      callbacks := callbacks + 1;
      promise := Some(localPromise);
      o := Issued(localPromise);
    }

    method Settle<E>(response: Result<T, E>) returns (r: Result<T, E>)
      modifies this
      ensures (State(), r) == ListSettle(old(State()), response)
    {
      if response.Ok? {
        list := Some(response.value);
      }
      promise := None;
      r := response;
    }
  }
}
