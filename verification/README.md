# RestSharpSample core in Dafny

This project models three parts of RestSharpSample, a C# sample built on RestSharp 106.

- **`RestBuilder`** is a fluent, mutable request builder. It holds header and cookie dictionaries, an ordered parameter list, and the method, format, timeout, body and file fields. `Create()` turns this state into a request.
- **`CustomRestClient`** is a RestSharp client. Its `GetFromCache<T>` reads through a cache:
  - on a hit it returns the cached value without a request;
  - on a miss answered with 200 OK it stores the data for 30 minutes;
  - on any other miss it returns null and writes nothing.

  `PostsRestClient.GetByID` fetches a post through that path under the key `"Post" + id`.
- **`CacheService`** is a typed facade over the process-wide `MemoryCache.Default`. `Set` ignores null and never replaces a live entry. `Get<T>` is an `as T` cast.

## Modules

- **`Values`**: nullable references (`Option`), C#'s `int`, runtime types with `is`/`as`, and the exceptions the core throws.
- **`RestTypes`**: RestSharp's `Method`, `DataFormat`, `ParameterType` and `Parameter`, plus the `Descriptor` that `Create()` returns.
- **`ParameterList`**: the `List`/LINQ operations the builder uses on its parameters: `Find`, `Remove` and `Intersect`. It also has two specifications of `AddParameters`, as written and as intended.
- **`Builder`**: class `RestBuilder`, with one method per constructor and mutator.
  - Mutators that can throw return `Fail(error)`. All of them except `AddParameters` fail before changing anything. `AddParameters` fails after its first replacement has already changed the list.
  - Each method's `modifies` clause names only the fields it touches. This states "only the targeted field changes".
- **`Cache`**: class `MemoryCache`, the store, and class `CacheService`. Each service is given its `MemoryCache`; the process-wide sharing of `MemoryCache.Default` holds when callers give every service the same object. Time (`now`, in milliseconds) is a parameter.
- **`Decimal`**: `int.ToString()`, and the proof that it is injective.
- **`Client`**: classes `Transport`, `CustomRestClient` and `PostsRestClient`, and the function `CacheThrough` that specifies `GetFromCache`.
  - The server is an oracle: the reply to the n-th request sent to a base URL. `Transport.calls` counts the requests.
  - The lemmas about `CacheThrough` and `Replay` cover hits, misses, retries after failure and one request per 30-minute window.

Two behaviours of the code worth knowing:
- The `FormattableString` and `Uri` constructors reject only null, so their resource may be empty.
- `AddParameters` replaces only parameters *equal* to an existing one; a mere name collision appends.

## Model

| member | source | states |
|---|---|---|
| Values.As | RestSharpSample/Concrete/CacheService.cs:11 | `o as T` gives the object exactly when it is non-null and its runtime type is a `T`, and null otherwise; it never fails |
| Decimal.NatToString | RestSharpSample/Concrete/CustomRestClient.cs:36-37 | the rendering of a natural is a non-empty string of decimal digits, at least two for numbers from 10 up |
| Decimal.IntToString | RestSharpSample/Concrete/CustomRestClient.cs:36-37 | `id.ToString()` is non-empty and starts with '-' exactly for negative numbers |
| Decimal.NatToStringInjective | RestSharpSample/Concrete/CustomRestClient.cs:37 | equal decimal renderings of naturals come from equal naturals |
| Decimal.IntToStringInjective | RestSharpSample/Concrete/CustomRestClient.cs:37 | equal renderings of integers come from equal integers |
| ParameterList.IndexOfName | RestSharpSample/Concrete/RestBuilder.cs:416 | `List.Find` by name: the index is the first with that name, or the length when no parameter has it |
| ParameterList.FindByName | RestSharpSample/Concrete/RestBuilder.cs:343 | `Array.Find` by name is null exactly when no element has the name; otherwise it is an element with that name that no earlier such element precedes |
| ParameterList.FindByNameOfMember | RestSharpSample/Concrete/RestBuilder.cs:343-345 | a duplicate, being in the incoming array, is always found by its name, so the `continue` branch is never taken |
| ParameterList.RemoveFirst | RestSharpSample/Concrete/RestBuilder.cs:347 | `List.Remove` leaves the list unchanged when the element is absent and shortens it by one otherwise |
| ParameterList.RemoveFirstMultiset | RestSharpSample/Concrete/RestBuilder.cs:347 | `List.Remove` takes out exactly one occurrence and nothing else |
| ParameterList.RemoveFirstInFront | RestSharpSample/Concrete/RestBuilder.cs:347 | removing an element that occurs in a prefix leaves the rest of the list untouched |
| ParameterList.RemoveFirstBehind | RestSharpSample/Concrete/RestBuilder.cs:423 | removing an element that does not occur in a prefix keeps that prefix |
| ParameterList.RemoveFirstAt | RestSharpSample/Concrete/RestBuilder.cs:416-423 | when no earlier element equals the one at position i, `Remove` deletes exactly position i |
| ParameterList.IntersectFrom | RestSharpSample/Concrete/RestBuilder.cs:331 | LINQ `Intersect` yields exactly the elements of the first sequence that are in the second |
| ParameterList.IntersectFromSubList | RestSharpSample/Concrete/RestBuilder.cs:331 | what `Intersect` yields is a sub-multiset of the first sequence |
| ParameterList.IntersectFromDistinct | RestSharpSample/Concrete/RestBuilder.cs:331 | `Intersect` never yields an element twice |
| ParameterList.Intersect | RestSharpSample/Concrete/RestBuilder.cs:331 | the duplicates are exactly the existing parameters equal to some incoming one |
| ParameterList.IntersectFromHead | RestSharpSample/Concrete/RestBuilder.cs:331 | the first element `Intersect` yields is the first element of the first sequence that lies in the second |
| ParameterList.IntersectFromInOrder | RestSharpSample/Concrete/RestBuilder.cs:331 | `Intersect` yields its elements in the order of the first sequence: at strictly increasing positions of it, each at its first occurrence there, so `[a,b,c,b]` gives `[a,b,c]` |
| ParameterList.IntersectHead | RestSharpSample/Concrete/RestBuilder.cs:331 | the first duplicate, the one the as-written loop replaces, is the first existing parameter equal to an incoming one |
| ParameterList.IntersectInOrder | RestSharpSample/Concrete/RestBuilder.cs:331 | the duplicates come in the order of their first occurrences in the existing list |
| ParameterList.IntersectDistinct | RestSharpSample/Concrete/RestBuilder.cs:331 | each duplicate is listed once, however often it occurs |
| ParameterList.IntersectSubList | RestSharpSample/Concrete/RestBuilder.cs:331 | the duplicates form a sub-multiset of the existing list |
| ParameterList.ReplaceOne | RestSharpSample/Concrete/RestBuilder.cs:343-348 | one turn of the loop body: without a name match nothing changes; otherwise the list ends with the first incoming parameter with the duplicate's name, and keeps its length when the duplicate was present |
| ParameterList.ReplaceEach | RestSharpSample/Concrete/RestBuilder.cs:341-349 | the loop body applied to each duplicate in order; each turn grows the list by at most one |
| ParameterList.ReplaceEachLength | RestSharpSample/Concrete/RestBuilder.cs:341-349 | when every duplicate is in the list and in the incoming array, replacing them all keeps the list's length |
| ParameterList.RemoveAll | RestSharpSample/Concrete/RestBuilder.cs:347 | the `Remove` calls of the loop, one per duplicate: each shortens the list by at most one |
| ParameterList.Replacements | RestSharpSample/Concrete/RestBuilder.cs:343-348 | the parameters the loop appends: at most one per duplicate, all from the incoming array |
| ParameterList.ReplaceEachSnoc | RestSharpSample/Concrete/RestBuilder.cs:341-349 | running the loop body for one more duplicate extends the fold of the loop at its end |
| ParameterList.RemoveAllCount | RestSharpSample/Concrete/RestBuilder.cs:341-349 | removing a sub-multiset of the list, one `Remove` at a time, shortens it by its size and takes out exactly its elements |
| ParameterList.ReplacementsMatch | RestSharpSample/Concrete/RestBuilder.cs:343 | every duplicate gets exactly one replacement: the first incoming parameter with its name |
| ParameterList.SubMultisetStep | RestSharpSample/Concrete/RestBuilder.cs:347 | after removing one duplicate, the remaining duplicates are still in the list |
| ParameterList.ReplaceOneInFront | RestSharpSample/Concrete/RestBuilder.cs:343-348 | one turn of the loop removes a duplicate from where it sits and appends the first incoming parameter with its name |
| ParameterList.ReplaceEachShape | RestSharpSample/Concrete/RestBuilder.cs:341-349 | replacing every duplicate removes each once from where it is and appends the replacements in order |
| ParameterList.AddParametersAsWritten | RestSharpSample/Concrete/RestBuilder.cs:327-352 | without duplicates the whole array is appended, even when names collide; with any duplicate the call ends in `InvalidOperationException` |
| ParameterList.AddParametersIntended | RestSharpSample/Concrete/RestBuilder.cs:327-352 | as intended: without duplicates the whole array is appended; with duplicates every one is replaced and the length is kept |
| ParameterList.AsWrittenReplacesOnlyTheFirstDuplicate | RestSharpSample/Concrete/RestBuilder.cs:341-349 | as written, only the first duplicate is replaced before the enumeration throws; the list keeps its length |
| ParameterList.IntendedReplacesEveryDuplicate | RestSharpSample/Concrete/RestBuilder.cs:341-349 | iterating over the duplicates as intended replaces each one, keeps the length, and ends the list with the replacements |
| ParameterList.NameCollisionAloneAppends | RestSharpSample/Concrete/RestBuilder.cs:331-337 | `q=a` then `AddParameters([q=b])` appends, giving `[q=a, q=b]` |
| ParameterList.ReaddingAParameterThrows | RestSharpSample/Concrete/RestBuilder.cs:341-349 | re-adding a present parameter throws as written, while the intended version returns the same list |
| ParameterList.SecondDuplicateIsNotReplaced | RestSharpSample/Concrete/RestBuilder.cs:341-349 | with duplicates `a, b`, as written the list becomes `[b, a]` and stops; as intended it becomes `[a, b]` |
| Builder.CopyEntries | RestSharpSample/Concrete/RestBuilder.cs:446-454 | enumerating a dictionary and adding each entry copies it exactly |
| Builder.MergeStep | RestSharpSample/Concrete/RestBuilder.cs:255-270 | one more `AddHeader` step moves the merge of the incoming entries forward by that key |
| Builder.PutCount | RestSharpSample/Concrete/RestBuilder.cs:32 | overwriting or adding one entry grows the count by one exactly when the key was absent |
| Builder.RestBuilder.Init | RestSharpSample/Concrete/RestBuilder.cs:49-56 | a fresh builder has the given method and format, timeout 0, no headers, cookies or parameters, and no body or file |
| Builder.RestBuilder.FromString | RestSharpSample/Concrete/RestBuilder.cs:42-57 | a null or empty resource throws `ArgumentNullException("resource")`; otherwise the builder is initial, with GET and Json |
| Builder.RestBuilder.FromFormattable | RestSharpSample/Concrete/RestBuilder.cs:63-77 | only null throws; the resource is the formatted text, with GET and Json |
| Builder.RestBuilder.FromUri | RestSharpSample/Concrete/RestBuilder.cs:84-98 | only null throws; the resource is the URI's text, with GET and Json |
| Builder.RestBuilder.FromStringWithMethod | RestSharpSample/Concrete/RestBuilder.cs:105-119 | a null or empty resource throws; otherwise the builder is initial with the given method and Json |
| Builder.RestBuilder.FromStringWithMethodAndFormat | RestSharpSample/Concrete/RestBuilder.cs:127-141 | a null or empty resource throws; otherwise the builder is initial with the given method and format |
| Builder.RestBuilder.HeaderCount | RestSharpSample/Concrete/RestBuilder.cs:32 | the count is zero exactly when there are no headers |
| Builder.RestBuilder.AddBody | RestSharpSample/Concrete/RestBuilder.cs:152-161 | null throws and keeps the body; otherwise the new body replaces the old one (last write wins) |
| Builder.RestBuilder.AddFile | RestSharpSample/Concrete/RestBuilder.cs:170-187 | an empty name throws for `name`, then an empty path throws for `path`, with the file fields kept; otherwise all three file fields are replaced |
| Builder.RestBuilder.SetFormat | RestSharpSample/Concrete/RestBuilder.cs:194-198 | the format is the one given, and nothing else changes |
| Builder.RestBuilder.AddHeader | RestSharpSample/Concrete/RestBuilder.cs:206-222 | afterwards the map sends the name to the value and every other entry is unchanged; the count grows by one exactly when the name was absent |
| Builder.RestBuilder.AddCookie | RestSharpSample/Concrete/RestBuilder.cs:230-246 | the same overwrite rule and count for cookies |
| Builder.RestBuilder.AddHeaders | RestSharpSample/Concrete/RestBuilder.cs:253-273 | applying the `AddHeader` rule to every incoming entry gives the old map overridden by the incoming one; old keys not in it are kept |
| Builder.RestBuilder.SetMethod | RestSharpSample/Concrete/RestBuilder.cs:280-284 | the method is the one given, and nothing else changes |
| Builder.RestBuilder.SetTimeout | RestSharpSample/Concrete/RestBuilder.cs:291-300 | a negative timeout throws `ArgumentOutOfRangeException` and keeps the old one; otherwise it is stored exactly |
| Builder.RestBuilder.AddParameter | RestSharpSample/Concrete/RestBuilder.cs:307-320 | null throws; afterwards the parameter is in the list, appended only if no equal one was there |
| Builder.RestBuilder.AddParameters | RestSharpSample/Concrete/RestBuilder.cs:327-352 | the loop as written ends with the outcome and list of `AddParametersAsWritten`: append without duplicates, otherwise one replacement and then `InvalidOperationException` |
| Builder.RestBuilder.AddParametersSnapshot | RestSharpSample/Concrete/RestBuilder.cs:341-349 | the loop over a snapshot of the duplicates leaves the list `AddParametersIntended` describes |
| Builder.RestBuilder.RemoveHeader | RestSharpSample/Concrete/RestBuilder.cs:359-371 | an empty name throws and changes nothing; otherwise the name is removed, which is a no-op when it is absent |
| Builder.RestBuilder.RemoveHeaders | RestSharpSample/Concrete/RestBuilder.cs:378-382 | the headers, and only they, become empty |
| Builder.RestBuilder.RemoveCookies | RestSharpSample/Concrete/RestBuilder.cs:388-392 | the cookies, and only they, become empty |
| Builder.RestBuilder.RemoveParameters | RestSharpSample/Concrete/RestBuilder.cs:398-402 | the parameter list, and only it, becomes empty |
| Builder.RestBuilder.RemoveParameter | RestSharpSample/Concrete/RestBuilder.cs:409-426 | null throws; otherwise exactly the first parameter with the same name is removed (length minus one), and nothing happens when none has it |
| Builder.RestBuilder.Create | RestSharpSample/Concrete/RestBuilder.cs:432-464 | the descriptor carries resource, method and format, the parameters in list order, the body iff set, the headers and cookies, the file iff name and path are both non-empty, and the stored non-negative timeout; the builder is not changed |
| Builder.FirstNameIndexIsUnique | RestSharpSample/Concrete/RestBuilder.cs:416 | the position the linear `Find` stops at is the first one with the name |
| Builder.AddHeaderTwice | RestSharpSample/Concrete/RestBuilder.cs:206-222 | repeating `AddHeader` with the same arguments gives the map one call gives |
| Builder.AddParameterTwice | RestSharpSample/Concrete/RestBuilder.cs:307-320 | adding the same parameter twice gives the list that adding it once gives |
| Builder.CreateIsRepeatable | RestSharpSample/Concrete/RestBuilder.cs:432-464 | two `Create` calls on an unchanged builder give equal descriptors |
| Cache.Lookup | RestSharpSample/Concrete/CacheService.cs:9-12 | `Get<T>` hits exactly when the key has an unexpired entry whose runtime type is a `T`, and then gives that object |
| Cache.Added | RestSharpSample/Concrete/CacheService.cs:14-20 | `Set` touches no other key; null data or a live entry leave the store unchanged; otherwise the key holds the data until now plus the minutes |
| Cache.MemoryCache.constructor | RestSharpSample/Concrete/CacheService.cs:11-18 | `MemoryCache.Default` starts empty |
| Cache.CacheService.constructor | RestSharpSample/Concrete/CacheService.cs:7-11 | the service reads and writes the memory cache it is given; the services share one store when their callers give them the same `MemoryCache` object, as `MemoryCache.Default` is one object per process |
| Cache.CacheService.Get | RestSharpSample/Concrete/CacheService.cs:9-12 | the result is `Lookup` on the shared store, and is a `T` whenever it is non-null |
| Cache.CacheService.Set | RestSharpSample/Concrete/CacheService.cs:14-20 | the shared store becomes `Added(...)`; the type argument plays no part |
| Cache.SetThenGet | RestSharpSample/Concrete/CacheService.cs:9-20 | after `Set` on a free key, `Get<U>` before expiry gives the object exactly when its runtime type is a `U`; this depends only on that runtime type |
| Cache.ExpiredEntryIsMissing | RestSharpSample/Concrete/CacheService.cs:18 | once the expiry is reached, the stored object is gone |
| Cache.SetKeepsLiveEntry | RestSharpSample/Concrete/CacheService.cs:18 | `MemoryCache.Add` on a key with a live entry changes nothing |
| Cache.SetNullIsNoOp | RestSharpSample/Concrete/CacheService.cs:16-19 | `Set` with null data leaves the store unchanged |
| Cache.SetLeavesOtherKeys | RestSharpSample/Concrete/CacheService.cs:14-20 | `Set` on one key does not change what `Get` gives for another |
| Cache.UnsetKeyMisses | RestSharpSample/Concrete/CacheService.cs:11 | `Get<T>` on a key that was never set gives null |
| Client.Typed | RestSharpSample/Concrete/CustomRestClient.cs:71-76 | the typed response keeps the status, and its data is the reply's data when that is a `T`, null otherwise |
| Client.Transport.Send | RestSharpSample/Concrete/CustomRestClient.cs:66 | each request gets the oracle's reply for its position and counts one call |
| Client.CacheThrough | RestSharpSample/Concrete/CustomRestClient.cs:92-111 | a request is sent exactly when the typed cache lookup misses; a non-null result is a `T`; a non-OK reply never changes the cache |
| Client.HitMakesNoRequest | RestSharpSample/Concrete/CustomRestClient.cs:95-96 | on a hit, the cached value is returned, the cache is unchanged and no request is sent |
| Client.MissStoresForThirtyMinutes | RestSharpSample/Concrete/CustomRestClient.cs:97-103 | a miss answered OK with a `T` sends one request, returns the data, and makes it a hit for the next 30 minutes |
| Client.MissPersists | RestSharpSample/Concrete/CacheService.cs:11 | a miss stays a miss later as long as nothing is stored |
| Client.FailureIsRetried | RestSharpSample/Concrete/CustomRestClient.cs:95-108 | a miss answered with a non-OK status returns null, leaves the cache unchanged, and the next call sends a request again |
| Client.NullDataIsRetried | RestSharpSample/Concrete/CustomRestClient.cs:99-103 | a miss answered OK with null data returns null, stores nothing, and the next call sends a request again |
| Client.ForeignEntryBlocksCaching | RestSharpSample/Concrete/CustomRestClient.cs:95-103 | a live entry of another type under the key makes every call send a request, and the fetched data is never stored |
| Client.Replay | RestSharpSample/Concrete/CustomRestClient.cs:92-111 | a series of calls sends at most one request per call |
| Client.HitsWhileLive | RestSharpSample/Concrete/CustomRestClient.cs:95-96 | while an entry of the requested type lives, a series of calls sends no request and leaves the cache unchanged |
| Client.OneRequestPerWindow | RestSharpSample/Concrete/CustomRestClient.cs:92-111 | after a successful miss, every call in the next 30 minutes is a hit: one request in total |
| Client.CustomRestClient.constructor | RestSharpSample/Concrete/CustomRestClient.cs:45-54 | the client keeps its cache and base URL, and registers the deserialiser for the three JSON content types |
| Client.CustomRestClient.Execute | RestSharpSample/Concrete/CustomRestClient.cs:64-69 | the base client's reply is returned unchanged, with one request sent; `TimeoutCheck` has no effect |
| Client.CustomRestClient.ExecuteAs | RestSharpSample/Concrete/CustomRestClient.cs:71-76 | the base client's typed reply is returned unchanged, with one request sent |
| Client.CustomRestClient.Get | RestSharpSample/Concrete/CustomRestClient.cs:78-90 | the typed data when the status is OK, null otherwise; one request, and the cache is neither read nor written |
| Client.CustomRestClient.GetFromCache | RestSharpSample/Concrete/CustomRestClient.cs:92-111 | result, new cache and request count are exactly those `CacheThrough` gives for the cache before the call and the transport's next reply |
| Client.PostRequest | RestSharpSample/Concrete/CustomRestClient.cs:35-36 | `GET /{id}` with one URL-segment parameter `id` holding the id's text, and no body, file, headers or cookies |
| Client.DistinctPostsHaveDistinctRequests | RestSharpSample/Concrete/CustomRestClient.cs:35-36 | distinct ids give distinct requests |
| Client.PostKey | RestSharpSample/Concrete/CustomRestClient.cs:37 | the key is "Post" followed by the id's text |
| Client.DistinctPostsHaveDistinctKeys | RestSharpSample/Concrete/CustomRestClient.cs:37 | distinct ids give distinct cache keys |
| Client.FetchingOnePostLeavesOthers | RestSharpSample/Concrete/CustomRestClient.cs:33-38 | fetching one post never changes what the cache gives for another post |
| Client.PostsRestClient.constructor | RestSharpSample/Concrete/CustomRestClient.cs:28-31 | the client is a `CustomRestClient` for the posts endpoint |
| Client.PostsRestClient.GetByID | RestSharpSample/Concrete/CustomRestClient.cs:33-38 | `GET /{id}` with the id as URL segment, read through the cache under `"Post" + id` as a `PostModel` |

## Left out

- Null keys, names and collections: null header names, cookie names, dictionaries and parameter arrays would raise the library's own exceptions. Strings that the source tests with `IsNullOrEmpty` are modelled with "" standing for null.
- Builder.RestBuilder.AddParameters: null elements of the incoming array are not modelled (the elements are `Parameter` values, never null). In the source, when there is no duplicate, `AddRange` appends a null element, bypassing the null check of `AddParameter`; a later `RemoveParameter` then throws `NullReferenceException` when its `Find` reaches it. When there is a duplicate, `Array.Find` throws `NullReferenceException` on a null element before the first match. The same holds for ParameterList.AddParametersAsWritten and ParameterList.AddParametersIntended.
- Null header and cookie values: `AddHeader`, `AddCookie` and `AddHeaders` accept a null value, which a `Dictionary` stores. The maps here hold strings only, so a null value is not modelled.
- Decimal.IntToString: `id.ToString()` uses the current culture's negative sign. The model always uses '-', so the key of a negative id may differ under another culture. Distinct ids still give distinct keys under any one culture.
- Dictionary enumeration order: headers and cookies are maps, so the order in which `Create` and `AddHeaders` visit entries is not modelled. The results do not depend on it.
- `FormattableString.ToString()` and `Uri.ToString()`: the resource is their text, taken as given. A `Uri` rejecting a malformed base URL in the `CustomRestClient` constructor is not modelled.
- RestSharp internals are opaque. This covers `RestRequest.AddParameter`/`AddBody`/`AddFile`/`AddUrlSegment`, serialisation, and the deserialiser registered with `AddHandler`. The descriptor records what `Create` passes on. The server, transport and deserialiser are one oracle; deserialising into `T` yields a `T` or null.
- Client.CustomRestClient.TimeoutCheck: its status-0 branch holds only a comment, so the method has no effect and no contract.
- Client.CustomRestClient.Get: `default(T)` is modelled as null; value types `T` (default zero values) are not modelled.
- Client.PostsRestClient: inheritance from `CustomRestClient` is modelled as a wrapped client.
- Client.CustomRestClient.GetFromCache: the clock is read once per call. The time spent in the request before `Set` reads `DateTime.Now` is not modelled.
- Cache.CacheService.Set: `DateTime.AddMinutes` overflowing the calendar range throws in .NET, and this is not modelled. Expiry is `now + minutes * 60000` milliseconds.
- `MemoryCache` eviction under memory pressure, sliding expiration and the cache's own clock are not modelled. An entry counts as expired from its absolute expiry time on.
- Type tests know only exact runtime types and `object`: subclassing between model classes is not modelled.
- Concurrency: thread safety of the shared cache and concurrent misses on one key are not modelled.
- Console I/O, the program entry point and the `HttpClient`-based product services are outside this model.

## Findings

| source | as written | input that shows it | evidently intended | confidence | as-written member | corrected member |
|---|---|---|---|---|---|---|
| RestSharpSample/Concrete/RestBuilder.cs:331-349 | the `foreach` runs over a lazy `Intersect` of the live `_parameters` list and changes that list in its body, so the next `MoveNext` throws `InvalidOperationException` after the first replacement, whenever there is any duplicate | existing `[q=a]`, `AddParameters([q=a])`; or existing `[a, b]`, incoming `[a, b]`, which leaves `[b, a]` and throws | every duplicate replaced by the first incoming parameter with its name, and the call returns normally | not executed | ParameterList.SecondDuplicateIsNotReplaced | ParameterList.IntendedReplacesEveryDuplicate |
