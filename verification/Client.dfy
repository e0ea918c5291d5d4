/** `CustomRestClient`: a RestSharp client whose `GetFromCache` reads through
    the shared cache, and `PostsRestClient`, which fetches posts by id. The
    server, RestSharp's transport and its deserialiser are an oracle: the reply
    to the n-th request sent through a transport. */
module Client {
  import opened Values
  import opened RestTypes
  import opened Cache
  import Decimal

  /** `HttpStatusCode.OK`; RestSharp reports 0 when no response arrived. */
  const OK := 200
  /** How long `GetFromCache` keeps a fetched value. */
  const CacheMinutes: int32 := 30
  /** The content types the client's deserialiser is registered for. */
  const JsonContentTypes := ["application/json", "text/json", "text/x-json"]
  const PostsUrl := "https://jsonplaceholder.typicode.com/posts"
  /** The runtime type `PostModel`. */
  const PostModel := ClassType("PostModel")

  /** An `IRestResponse`: status code and deserialised data (null when absent). */
  datatype Response = Response(status: int, data: Option<Obj>)

  /** `IRestResponse<T>`: the same reply with its data seen as a `T`; data of
      another type cannot be a `T` and reads as null. */
  function Typed(raw: Response, target: TypeTag): (r: Response)
    ensures r.status == raw.status
    ensures r.data.Some? ==> r.data == raw.data && IsA(r.data.value.runtimeType, target)
    ensures raw.data.Some? && IsA(raw.data.value.runtimeType, target) ==> r.data == raw.data
  {
    Response(raw.status, As(raw.data, target))
  }

  /** RestSharp's transport, with the number of requests sent so far. */
  class Transport {
    /** The reply to the n-th request sent to a base URL. */
    const answer: (string, Descriptor, nat) -> Response
    var calls: nat

    constructor(answer: (string, Descriptor, nat) -> Response)
      ensures this.answer == answer && calls == 0
    {
      this.answer := answer;
      calls := 0;
    }

    /** `RestClient.Execute`: one request, one reply. */
    method Send(baseUrl: string, request: Descriptor) returns (r: Response)
      modifies this`calls
      ensures calls == old(calls) + 1
      ensures r == answer(baseUrl, request, old(calls))
    {
      r := answer(baseUrl, request, calls);
      calls := calls + 1;
    }
  }

  /** `TimeoutCheck` looks for this; its branch only holds a comment. */
  predicate TimedOut(response: Response)
  {
    response.status == 0
  }

  /** The outcome of one `GetFromCache`: the value returned, the cache
      afterwards and whether the transport was used. */
  datatype Fetch = Fetch(value: Option<Obj>, store: Store, executed: bool)

  /** `GetFromCache<T>(request, key)` at time `now`, where `raw` is the reply
      the transport would give. */
  function CacheThrough(store: Store, key: string, target: TypeTag, now: int, raw: Response): (f: Fetch)
    ensures f.executed <==> Lookup(store, key, target, now).None?
    ensures f.value.Some? ==> IsA(f.value.value.runtimeType, target)
    ensures raw.status != OK ==> f.store == store
  {
    var item := Lookup(store, key, target, now);
    if item.Some? then
      Fetch(item, store, false)
    else
      var response := Typed(raw, target);
      if response.status == OK then
        Fetch(response.data, Added(store, key, response.data, CacheMinutes as int, now), true)
      else
        Fetch(None, store, true)
  }

  /** Hit: the cached value comes back, the cache is untouched and no request is sent. */
  lemma HitMakesNoRequest(store: Store, key: string, target: TypeTag, now: int, raw: Response)
    requires Lookup(store, key, target, now).Some?
    ensures CacheThrough(store, key, target, now, raw) == Fetch(Lookup(store, key, target, now), store, false)
  {
  }

  /** Miss with OK and data of the requested type: one request, the data is
      returned, and it is served from the cache for the next 30 minutes. */
  lemma MissStoresForThirtyMinutes(store: Store, key: string, target: TypeTag, now: int, raw: Response, later: int)
    requires !Live(store, key, now)
    requires raw.status == OK && raw.data.Some? && IsA(raw.data.value.runtimeType, target)
    requires now <= later < now + CacheMinutes as int * MillisPerMinute
    ensures var f := CacheThrough(store, key, target, now, raw);
            f.executed && f.value == raw.data && Lookup(f.store, key, target, later) == raw.data
  {
    var f := CacheThrough(store, key, target, now, raw);
    assert f.store == Added(store, key, raw.data, CacheMinutes as int, now);
    SetThenGet(store, key, raw.data.value, CacheMinutes as int, now, later, target);
  }

  /** A miss stays a miss as time passes, as long as nothing is stored. */
  lemma MissPersists(store: Store, key: string, target: TypeTag, now: int, later: int)
    requires Lookup(store, key, target, now).None?
    requires now <= later
    ensures Lookup(store, key, target, later).None?
  {
  }

  /** Failures are never cached: after a miss answered with anything but OK,
      the cache is unchanged and the next call sends a request again. */
  lemma FailureIsRetried(store: Store, key: string, target: TypeTag, now: int, raw: Response,
                         later: int, next: Response)
    requires Lookup(store, key, target, now).None?
    requires raw.status != OK
    requires now <= later
    ensures var f := CacheThrough(store, key, target, now, raw);
            f.executed && f.value == None && f.store == store
            && CacheThrough(f.store, key, target, later, next).executed
  {
    MissPersists(store, key, target, now, later);
  }

  /** OK with null data (or data of another type): null is returned, nothing
      is stored, and the next call sends a request again. */
  lemma NullDataIsRetried(store: Store, key: string, target: TypeTag, now: int, raw: Response,
                          later: int, next: Response)
    requires Lookup(store, key, target, now).None?
    requires raw.status == OK && As(raw.data, target).None?
    requires now <= later
    ensures var f := CacheThrough(store, key, target, now, raw);
            f.executed && f.value == None && f.store == store
            && CacheThrough(f.store, key, target, later, next).executed
  {
    var f := CacheThrough(store, key, target, now, raw);
    assert f.store == Added(store, key, None, CacheMinutes as int, now) == store;
    MissPersists(store, key, target, now, later);
  }

  /** A live entry of another type under the key makes every call a miss, and
      add-if-absent keeps the fetched data out of the cache: each call sends a request. */
  lemma ForeignEntryBlocksCaching(store: Store, key: string, target: TypeTag, now: int, raw: Response)
    requires Live(store, key, now) && !IsA(store[key].obj.runtimeType, target)
    ensures var f := CacheThrough(store, key, target, now, raw);
            f.executed && f.store == store && f.value == (if raw.status == OK then As(raw.data, target) else None)
  {
    SetKeepsLiveEntry(store, key, As(raw.data, target), CacheMinutes as int, now, target);
  }

  /** A series of `GetFromCache` calls on one key: a clock reading and the
      transport's reply for each call, in order. */
  datatype Tally = Tally(executions: nat, store: Store)

  function Replay(store: Store, key: string, target: TypeTag, calls: seq<(int, Response)>): (t: Tally)
    ensures t.executions <= |calls|
    decreases |calls|
  {
    if calls == [] then
      Tally(0, store)
    else
      var f := CacheThrough(store, key, target, calls[0].0, calls[0].1);
      var rest := Replay(f.store, key, target, calls[1..]);
      Tally(rest.executions + (if f.executed then 1 else 0), rest.store)
  }

  /** While an entry of the requested type lives, no call sends a request. */
  lemma {:induction false} HitsWhileLive(store: Store, key: string, target: TypeTag, calls: seq<(int, Response)>)
    requires key in store && IsA(store[key].obj.runtimeType, target)
    requires forall i :: 0 <= i < |calls| ==> calls[i].0 < store[key].expiresAt
    ensures Replay(store, key, target, calls) == Tally(0, store)
    decreases |calls|
  {
    if calls != [] {
      assert Lookup(store, key, target, calls[0].0).Some?;
      forall i | 0 <= i < |calls[1..]| ensures calls[1..][i].0 < store[key].expiresAt {
        assert calls[1..][i] == calls[i + 1];
      }
      HitsWhileLive(store, key, target, calls[1..]);
    }
  }

  /** At most one request per 30-minute window: once a miss is answered with
      OK and data of the requested type, every call in the next 30 minutes is a hit. */
  lemma OneRequestPerWindow(store: Store, key: string, target: TypeTag, now: int, first: Response,
                            calls: seq<(int, Response)>)
    requires !Live(store, key, now)
    requires first.status == OK && first.data.Some? && IsA(first.data.value.runtimeType, target)
    requires forall i :: 0 <= i < |calls| ==> calls[i].0 < now + CacheMinutes as int * MillisPerMinute
    ensures Replay(store, key, target, [(now, first)] + calls).executions == 1
  {
    var all := [(now, first)] + calls;
    assert all[0] == (now, first) && all[1..] == calls;
    var f := CacheThrough(store, key, target, now, first);
    assert f.executed;
    var stored := Added(store, key, first.data, CacheMinutes as int, now);
    assert f.store == stored;
    HitsWhileLive(stored, key, target, calls);
  }

  class CustomRestClient {
    const cache: CacheService
    const transport: Transport
    const baseUrl: string
    /** The content types registered with the client's deserialiser. */
    const handlers: seq<string>

    constructor(cache: CacheService, transport: Transport, baseUrl: string)
      ensures this.cache == cache && this.transport == transport && this.baseUrl == baseUrl
      ensures handlers == JsonContentTypes
    {
      this.cache := cache;
      this.transport := transport;
      this.baseUrl := baseUrl;
      handlers := JsonContentTypes;
    }

    /** `TimeoutCheck`: inspects the status and does nothing else. */
    method TimeoutCheck(request: Descriptor, response: Response)
    {
      if TimedOut(response) {
        // the source only has a comment here
      }
    }

    /** `Execute`: the base client's reply, passed through unchanged. */
    method Execute(request: Descriptor) returns (r: Response)
      modifies transport`calls
      ensures r == transport.answer(baseUrl, request, old(transport.calls))
      ensures transport.calls == old(transport.calls) + 1
    {
      r := transport.Send(baseUrl, request);
      TimeoutCheck(request, r);
    }

    /** `Execute<T>`: the base client's typed reply, passed through unchanged. */
    method ExecuteAs(request: Descriptor, target: TypeTag) returns (r: Response)
      modifies transport`calls
      ensures r == Typed(transport.answer(baseUrl, request, old(transport.calls)), target)
      ensures transport.calls == old(transport.calls) + 1
    {
      var raw := transport.Send(baseUrl, request);
      r := Typed(raw, target);
      TimeoutCheck(request, r);
    }

    /** `Get<T>`: the typed data when the status is OK, null otherwise; the
        cache is neither read nor written. */
    method Get(request: Descriptor, target: TypeTag) returns (r: Option<Obj>)
      modifies transport`calls
      ensures var raw := transport.answer(baseUrl, request, old(transport.calls));
              (raw.status == OK ==> r == As(raw.data, target)) && (raw.status != OK ==> r == None)
      ensures r.Some? ==> IsA(r.value.runtimeType, target)
      ensures transport.calls == old(transport.calls) + 1
    {
      var response := ExecuteAs(request, target);
      if response.status == OK {
        return response.data;
      } else {
        return None;
      }
    }

    /** `GetFromCache<T>` at time `now`. */
    method GetFromCache(request: Descriptor, key: string, target: TypeTag, now: int) returns (r: Option<Obj>)
      modifies cache.memory, transport`calls
      ensures var f := CacheThrough(old(cache.memory.entries), key, target, now,
                                    transport.answer(baseUrl, request, old(transport.calls)));
              && r == f.value
              && cache.memory.entries == f.store
              && transport.calls == old(transport.calls) + (if f.executed then 1 else 0)
    {
      var item := cache.Get(key, target, now);
      if item.None? {
        var response := ExecuteAs(request, target);
        if response.status == OK {
          cache.Set(key, response.data, CacheMinutes, now);
          item := response.data;
        } else {
          return None;
        }
      }
      return item;
    }
  }

  /** The request `GetByID` sends: `GET /{id}` with the id as URL segment.
      `new RestRequest(resource, method)` uses RestSharp's default format, Xml. */
  function PostRequest(id: int32): (d: Descriptor)
    ensures d.httpMethod == GET && d.resource == "/{id}"
    ensures |d.parameters| == 1 && d.parameters[0].kind == UrlSegment && d.parameters[0].name == "id"
    ensures d.parameters[0].value == Decimal.IntToString(id as int)
    ensures d.body.None? && d.file.None? && d.headers == map[] && d.cookies == map[]
  {
    Descriptor("/{id}", GET, Xml, [Parameter("id", Decimal.IntToString(id as int), UrlSegment)],
               None, map[], map[], None, 0)
  }

  /** The cache key of a post: "Post" followed by the id in decimal. */
  function PostKey(id: int32): (key: string)
    ensures |key| > 4 && key[..4] == "Post"
  {
    "Post" + Decimal.IntToString(id as int)
  }

  /** Distinct posts are cached under distinct keys. */
  lemma DistinctPostsHaveDistinctKeys(a: int32, b: int32)
    requires a != b
    ensures PostKey(a) != PostKey(b)
  {
    if PostKey(a) == PostKey(b) {
      assert Decimal.IntToString(a as int) == PostKey(a)[4..] == PostKey(b)[4..] == Decimal.IntToString(b as int);
      Decimal.IntToStringInjective(a as int, b as int);
    }
  }

  /** Distinct posts are requested with distinct requests. */
  lemma DistinctPostsHaveDistinctRequests(a: int32, b: int32)
    requires a != b
    ensures PostRequest(a) != PostRequest(b)
  {
    if PostRequest(a) == PostRequest(b) {
      assert PostRequest(a).parameters[0].value == PostRequest(b).parameters[0].value;
      Decimal.IntToStringInjective(a as int, b as int);
    }
  }

  /** Fetching one post never changes what the cache says about another. */
  lemma FetchingOnePostLeavesOthers(store: Store, a: int32, b: int32, now: int, raw: Response, later: int)
    requires a != b
    ensures var f := CacheThrough(store, PostKey(a), PostModel, now, raw);
            Lookup(f.store, PostKey(b), PostModel, later) == Lookup(store, PostKey(b), PostModel, later)
  {
    DistinctPostsHaveDistinctKeys(a, b);
    SetLeavesOtherKeys(store, PostKey(a), PostKey(b), As(raw.data, PostModel), CacheMinutes as int, now, later, PostModel);
  }

  /** `PostsRestClient`: a `CustomRestClient` for the posts endpoint. */
  class PostsRestClient {
    const client: CustomRestClient

    constructor(cache: CacheService, transport: Transport)
      ensures client.cache == cache && client.transport == transport && client.baseUrl == PostsUrl
    {
      client := new CustomRestClient(cache, transport, PostsUrl);
    }

    /** `GetByID`: the post with that id, through the cache under `PostKey(id)`. */
    method GetByID(id: int32, now: int) returns (r: Option<Obj>)
      modifies client.cache.memory, client.transport`calls
      ensures var f := CacheThrough(old(client.cache.memory.entries), PostKey(id), PostModel, now,
                                    client.transport.answer(client.baseUrl, PostRequest(id), old(client.transport.calls)));
              && r == f.value
              && client.cache.memory.entries == f.store
              && client.transport.calls == old(client.transport.calls) + (if f.executed then 1 else 0)
    {
      r := client.GetFromCache(PostRequest(id), PostKey(id), PostModel, now);
    }
  }
}
