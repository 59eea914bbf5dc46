# Route-table loader, modelled in Dafny

This project models the route-table loader of `RoutesConfig`. At start-up it reads a
JSON array of configured routes from a file, or from the inline `stringRoutes` text when the file
cannot be used. It walks the array element by element. Each element is read into a tree node. The
loader keeps the node only if it names a `channel` and a `transaction`, and passes it to the
injected mapper. It keeps the routes the mapper returns, in array order, and saves each one in the
route cache under the key `channel-transaction`.

Modules:

- `Json` (json.dfy): what the loader sees of a JSON text. The first token either is not `[`, fails
  to read, or opens an array. An array is a sequence of element reads, each failed or giving a node,
  ended by the closing bracket or by a tokenizer failure.
- `Routes` (routes.dfy): the `ConfiguredRoute` record, whose channel and transaction may be null,
  and the cache key. A null field renders as `null`, as `String.format` renders it.
- `RouteParsing` (route_parsing.dfy): `readNode`, `isValidNode`, `mapNode` as functions.
  `processJsonNodes` is a method whose loop appends to the route list. It is proved equal to
  `ProcessSpec`, which follows the loop's prefix-by-prefix shape (`ScanElements`). Lemmas tie that
  to `Kept`, an independent front-to-back reference definition, and state the filter's properties.
- `RouteCache` (route_cache.dfy): the cache as a class with an `entries` map and a ghost log of
  `saveInCache` calls. `PutAll` is the state after a sequence of saves.
- `RouteLoading` (route_loading.dfy): the `RoutesConfig` class with its two configured sources and
  `RouteInformationLoaded`. The method chooses the source, processes it and saves every route. It is
  proved against the function `Load`.

The model follows the code in places where one might expect otherwise:

- A missing file loads nothing. `filter(File::exists)` empties the pipeline, so the fallback text
  is not used either.
- Only an I/O failure while reading the file, or the technical error raised by
  `processJsonNodes`, falls back to `stringRoutes`. A file whose first token is not `[` raises
  `IllegalStateException`. The catch does not cover it, so the load fails with no fallback. The
  same happens when the mapper raises an exception other than `TechnicalException`.
- The validity check looks only at the JSON node's field names. The mapper's result is not checked,
  so a route with a null channel or transaction can reach the cache. Its key then contains `null`.

## Model

| member | source | states |
|---|---|---|
| `Routes.KeyRoundTrip` | RevCod/src/main/java/co/com/bancolombia/routes/RoutesConfig.java:62-63 | the key is channel, one dash, transaction: splitting it at the first dash gives back both parts whenever the channel has no dash |
| `Routes.KeyInjective` | RevCod/src/main/java/co/com/bancolombia/routes/RoutesConfig.java:62-63 | for dash-free channels, equal keys mean equal rendered channel and transaction |
| `Routes.KeyCollisions` | RevCod/src/main/java/co/com/bancolombia/routes/RoutesConfig.java:62-63 | there is no escaping: a dash in the channel, or a null channel against the text "null", makes distinct routes share a key |
| `Routes.KeyExamples` | RevCod/src/test/java/co/com/bancolombia/routes/RoutesConfigTest.java:416-429 | ("D2B", "9540") gives exactly "D2B-9540"; null fields render as "null" |
| `RouteParsing.ReadNode` | RevCod/src/main/java/co/com/bancolombia/routes/RoutesConfig.java:137-144 | a failed element read yields a null node; a successful read yields the node read |
| `RouteParsing.IsValidNodePresenceOnly` | RevCod/src/main/java/co/com/bancolombia/routes/RoutesConfig.java:159-161 | valid iff non-null, an object, and both `channel` and `transaction` are present; null, non-object and empty nodes are invalid; extra fields and the text do not matter |
| `RouteParsing.MapNode` | RevCod/src/main/java/co/com/bancolombia/routes/RoutesConfig.java:146-156 | null node gives null without consulting the mapper; a technical exception gives null; a returned route or null passes through; any other exception propagates |
| `RouteParsing.Contribution` | RevCod/src/main/java/co/com/bancolombia/routes/RoutesConfig.java:121-129 | an element adds at most one route, and exactly one iff its node was read, is valid and the mapper returned a route, which is the one added |
| `RouteParsing.ProcessJsonNodes` | RevCod/src/main/java/co/com/bancolombia/routes/RoutesConfig.java:113-134 | the loop's result equals `ProcessSpec`; the nodes handed to the mapper are a prefix of the valid nodes in order, all of them unless the mapper raised |
| `RouteParsing.ScanMatchesKept` | RevCod/src/main/java/co/com/bancolombia/routes/RoutesConfig.java:121-131 | the loop gathers routes iff no element makes the mapper raise an unchecked exception, and then gathers exactly the reference filter-map `Kept` |
| `RouteParsing.ScanAbortPersists` | RevCod/src/main/java/co/com/bancolombia/routes/RoutesConfig.java:150-152 | an unchecked mapper exception ends the walk: no later element changes the outcome |
| `RouteParsing.KeptConcat` | RevCod/src/main/java/co/com/bancolombia/routes/RoutesConfig.java:121-129 | the routes of two arrays laid end to end are the first's followed by the second's, so order is preserved |
| `RouteParsing.ElementIsolated` | RevCod/src/main/java/co/com/bancolombia/routes/RoutesConfig.java:121-129 | skipping or keeping one element never drops or reorders the routes before or after it |
| `RouteParsing.KeptLength` | RevCod/src/main/java/co/com/bancolombia/routes/RoutesConfig.java:121-129 | at most one route per element; when every element yields a route, there are exactly as many routes as elements, position by position |
| `RouteParsing.KeptMembers` | RevCod/src/main/java/co/com/bancolombia/routes/RoutesConfig.java:121-129 | a route is in the result iff some element contributes it |
| `RouteParsing.InvocationsAreValid` | RevCod/src/main/java/co/com/bancolombia/routes/RoutesConfig.java:123-124 | every node the mapper sees was read from the array and is valid |
| `RouteParsing.ProcessRoutes` | RevCod/src/main/java/co/com/bancolombia/routes/RoutesConfig.java:117-133 | routes come back iff the payload is a closed array and no element raises, and they are the kept routes |
| `RouteParsing.ProcessFailures` | RevCod/src/main/java/co/com/bancolombia/routes/RoutesConfig.java:118-131 | a first token other than `[` raises "Expected an array"; a tokenizer failure, at the start or after the elements, raises the technical error and discards the routes gathered |
| `RouteParsing.ProcessEmptyArray` | RevCod/src/test/java/co/com/bancolombia/routes/RoutesConfigTest.java:395-405 | `[]` gives the empty list and the mapper is never consulted |
| `RouteCache.Cache.SaveInCache` | RevCod/src/main/java/co/com/bancolombia/routes/RoutesConfig.java:106 | a save stores the route under the key, replacing the old value, and is logged once |
| `RouteCache.PutAllKeys` | RevCod/src/main/java/co/com/bancolombia/routes/RoutesConfig.java:103-106 | after the saves the cache holds its old keys plus the key of every saved route |
| `RouteCache.PutAllLastWriteWins` | RevCod/src/main/java/co/com/bancolombia/routes/RoutesConfig.java:103-106 | in the sequential model a key finds the last route saved under it |
| `RouteCache.PutAllKeepsOthers` | RevCod/src/main/java/co/com/bancolombia/routes/RoutesConfig.java:103-106 | a key no saved route has keeps its old value |
| `RouteLoading.RoutesConfig.RouteInformationLoaded` | RevCod/src/main/java/co/com/bancolombia/routes/RoutesConfig.java:91-109 | the outcome is `Load` of the file and the fallback; the cache becomes the old cache with every loaded route saved under its key in order, with one logged save per route and none when nothing loaded |
| `RouteLoading.LoadMissingFile` | RevCod/src/main/java/co/com/bancolombia/routes/RoutesConfig.java:92-93 | a missing file loads nothing and saves nothing |
| `RouteLoading.LoadReadErrorIsFallback` | RevCod/src/main/java/co/com/bancolombia/routes/RoutesConfig.java:94-101 | an unreadable file gives the same outcome as if the fallback text had been the file |
| `RouteLoading.LoadFallbackOnlyOnTechnicalError` | RevCod/src/main/java/co/com/bancolombia/routes/RoutesConfig.java:95-101 | the file's routes are used when it processes; only the technical error falls back; a non-array file or an unchecked mapper exception fails the load without fallback |
| `RouteLoading.LoadedFromOneSource` | RevCod/src/main/java/co/com/bancolombia/routes/RoutesConfig.java:94-103 | loaded routes are the kept routes of exactly one source, at most one per element of it |
| `RouteLoading.MixedArrayExample` | RevCod/src/test/java/co/com/bancolombia/routes/RoutesConfigTest.java:272-291 | for `[9540, invalid, 9541]` the routes are 9540 then 9541, the invalid element never reaches the mapper, and the cache holds exactly "D2B-9540" and "D2B-9541" |

## Left out

- JSON tokenizing and tree building are left out; they belong to the JSON library. A text is given as its token stream (`Json.Payload`). A failed element read is an element outcome, and the tokenizer's position after such a failure is not modelled. An unterminated array counts as a tokenizer failure after its elements.
- The Reactor pipeline is modelled as a sequential method: `Mono`, `flatMap`, and `subscribe()` with no error handler. An exception that escapes is returned as `Failed`; the source drops it inside `subscribe()`. Saves are applied in list order, so last-write-wins on colliding keys holds only for this sequential model; `flatMap` does not order asynchronous saves.
- Logging (`TechLogger`: fallback, route loaded, read and map failures) is left out; it changes no state the loader reads.
- The cache implementation is left out: `MemoryStash`, its size of 999, expiry, `SerializatorHelper` and `FunctionalCacheOpsImpl`. Only "save under a key" is modelled.
- `objectMapperBean` and the `@Bean`/`@Value` wiring of `cacheForRoutes` are left out; they are dependency injection and data-masking serializers, with no loader logic.
- The file system is left out: `File.exists`, `Files.readAllBytes` and platform-charset decoding. The file is a `FileSource` parameter: missing, unreadable, or its token stream.
- The mapper is a pure function of the node text. A mapper with side effects or state is not modelled.
- An `IOException` from closing the parser is not modelled. The source would treat it like any tokenizer failure.
