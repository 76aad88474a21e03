# OpenSearchServer GraphQL handlers, modelled in Dafny

OpenSearchServer exposes index management and web/file crawl sessions as
GraphQL queries and mutations. The class `GraphQLFunctions` holds the request
handlers. Each one reads its GraphQL arguments, calls the index service or
one of the two crawler services (web and file), and turns the answer into
the GraphQL result. This project models those handlers and proves what they
promise:

- `indexList` pages through the index service's name-to-UUID map. It
  first drops `start` keys (0 by default), counting every key whether or
  not it matches. It then collects up to `rows` keys (20 by default) whose
  name contains `keywords`. It is modelled as a method with the source's
  two counting loops, proved equal to the closed-form function
  `IndexPaging.Page`. The lemmas about `Page` give the bounds, the empty
  cases, the filter, the order and the UUIDs.
- `createIndex` and `deleteIndex` refuse a null, empty or blank name with
  `false`, and the service is then not called. Any other name reaches the
  service trimmed. Java's `isBlank` (Unicode whitespace) and `trim` (every
  character up to U+0020) are modelled exactly. They disagree on two sets
  of characters. The controls U+0000..U+0008 and U+000E..U+001B are not
  whitespace, yet `trim` strips them. `IndexNames.ControlOnlyNameForwardedEmpty`
  shows that the name U+0001 passes the guard and yet reaches the service
  as the empty string. The spaces U+1680, U+2000..U+2006, U+2008..U+200A,
  U+2028, U+2029, U+205F and U+3000 are whitespace, yet `trim` keeps them.
  `IndexNames.WideSpaceKeptByTrim` shows that " U+3000 a" reaches the
  service with its leading U+3000. `IndexNames.ForwardedNameStable` shows
  that a name without hidden controls reaches the service non-empty.
- `upsertWebCrawl` writes `crawlCollectorFactory` into the caller's
  settings map in place. `upsertFileCrawl` leaves the settings as they are.
  Both bind the `index` variable and store the definition under the
  session name.
- `getWebCrawl` and `getFileCrawl` read `index` back out of the stored
  variables. A 404 from the service becomes `null` (`Ok(None)`). Any other
  error status is thrown again (`Err(status)`). Upsert followed by get
  returns the index it was given.
- `runWebCrawl` and `runFileCrawl` forward the call and wrap the reported
  status. `abort*` and `delete*` forward the call and always return `true`.
  The list handlers copy the crawler's answer entry by entry.

Module layout: `Wrappers` (Java `null` and thrown errors as `Option` and
`Result`), `JavaLang` (`Integer`, `isBlank`, `trim`, `contains`),
`IndexNames` (the name guard), `IndexPaging` (the closed form of
`indexList`), `CrawlDefinitions` (definitions, enrichment, read-back),
`Services` (the index and crawler services, as classes),
`GraphQL` (the class `GraphQLFunctions` with one method per handler) and
`CrawlRoundTrip` (upsert-then-get).

The services are reduced to what the handlers can observe:

- The index service holds an ordered sequence of (name, UUID) entries.
- A crawler service holds a map from session name to definition.
- A definition is a string-keyed settings map plus a `variables` map.
- Every call a handler makes that can change a service is recorded in
  that service's request log, in call order: create/delete index, and
  upsert/run/stop/remove session.
- What a create, delete, run, stop or remove call does to the service's
  state is not interpreted. Each service holds a function, given when it is
  built, from its state, its log and the call to the new state. Only the
  upsert's effect is fixed: it stores the definition under the name.
- The `deleteIndex` result, the status `upsertSession` reports, the status
  `runSession` reports and the `getSessions` listing are each a separate
  function of the service's state, its log at the moment of the call, and
  the call's arguments. Each logged call (delete index, upsert, run) may
  therefore answer differently from an earlier identical one. Reads
  (`getIndexes`, `getSessions`, `getSessionDefinition`) are not logged, so
  two reads with no logged call between them give the same answer.
- A crawler service has a `fault` field. When it is set,
  `getSessionDefinition` fails with that status. This is how the model
  covers the re-throw branch of the get handlers.

The model follows the code as written:

- `indexList` skips raw keys, not matching keys.
- `abort*` returns `true` even for a session that is not running.
- `delete*` returns `true` whatever the removal does.
- The code holds no session lifecycle (idle, running, aborting and so on).
  None is modelled.

## Model

| member | source | states |
|---|---|---|
| `GraphQL.GraphQLFunctions.IndexList` | src/main/java/com/jaeksoft/opensearchserver/GraphQLFunctions.java:79-100 | the result equals `Page` of the service's map with `start` defaulting to 0 and `rows` to 20, proved through the two loops' invariants; in a map with one entry per key, each returned UUID is what `get` gives for its name |
| `IndexPaging.StartOrDefault` | src/main/java/com/jaeksoft/opensearchserver/GraphQLFunctions.java:81-84 | `start` is the `Integer` argument, a 32-bit value, or 0 when it is absent |
| `IndexPaging.RowsOrDefault` | src/main/java/com/jaeksoft/opensearchserver/GraphQLFunctions.java:82-85 | `rows` is the `Integer` argument, a 32-bit value, or 20 when it is absent |
| `IndexPaging.Page` | src/main/java/com/jaeksoft/opensearchserver/GraphQLFunctions.java:84-97 | the closed form of the two loops; it holds no more entries than the keys past the offset |
| `IndexPaging.Get` | src/main/java/com/jaeksoft/opensearchserver/GraphQLFunctions.java:95 | `indices.get(name)` is null exactly when no entry has that name, and otherwise the UUID of an entry with that name |
| `IndexPaging.Matches` | src/main/java/com/jaeksoft/opensearchserver/GraphQLFunctions.java:94 | a null `keywords` accepts every name; otherwise a name is accepted exactly when `keywords` occurs in it at some position |
| `IndexPaging.Skipped` | src/main/java/com/jaeksoft/opensearchserver/GraphQLFunctions.java:84-91 | the skip loop drops `start` keys, none for a non-positive `start`, every key when `start` reaches the key count |
| `IndexPaging.Prefix` | src/main/java/com/jaeksoft/opensearchserver/GraphQLFunctions.java:92-97 | the collecting loop keeps at most `rows` entries, in order from the front, none when `rows` is not positive |
| `IndexPaging.Matching` | src/main/java/com/jaeksoft/opensearchserver/GraphQLFunctions.java:94 | the kept entries are no more than the entries examined |
| `IndexPaging.MatchingSound` | src/main/java/com/jaeksoft/opensearchserver/GraphQLFunctions.java:94-95 | every kept entry contains `keywords` and is an entry of the map |
| `IndexPaging.MatchingComplete` | src/main/java/com/jaeksoft/opensearchserver/GraphQLFunctions.java:92-97 | every matching entry examined is kept |
| `IndexPaging.MatchingNullKeeps` | src/main/java/com/jaeksoft/opensearchserver/GraphQLFunctions.java:94 | a null `keywords` filters nothing |
| `IndexPaging.MatchingEmptyKeeps` | src/main/java/com/jaeksoft/opensearchserver/GraphQLFunctions.java:94 | the keyword "" filters nothing, since every name contains it |
| `IndexPaging.MatchingAppend` | src/main/java/com/jaeksoft/opensearchserver/GraphQLFunctions.java:92-97 | filtering distributes over concatenation, so the loop may stop anywhere |
| `IndexPaging.PageBounded` | src/main/java/com/jaeksoft/opensearchserver/GraphQLFunctions.java:85-97 | at most `rows` entries, none when `rows` is not positive |
| `IndexPaging.PageStartPastEnd` | src/main/java/com/jaeksoft/opensearchserver/GraphQLFunctions.java:88-92 | a `start` at or past the key count gives an empty list and no error |
| `IndexPaging.PageEmptyKeywordsUnfiltered` | src/main/java/com/jaeksoft/opensearchserver/GraphQLFunctions.java:84-97 | `keywords` set to "" gives the same page as a null `keywords` |
| `IndexPaging.PageSound` | src/main/java/com/jaeksoft/opensearchserver/GraphQLFunctions.java:88-97 | every returned entry contains `keywords` and lies after the skipped prefix |
| `IndexPaging.PageIdsAreStored` | src/main/java/com/jaeksoft/opensearchserver/GraphQLFunctions.java:95 | each returned entry carries the UUID `get` finds for its name in a map with one entry per key |
| `IndexPaging.PageIdsAllStored` | src/main/java/com/jaeksoft/opensearchserver/GraphQLFunctions.java:95 | in a map with one entry per key, every entry of the page carries the UUID `get` finds for its name |
| `IndexPaging.GetDistinct` | src/main/java/com/jaeksoft/opensearchserver/GraphQLFunctions.java:95 | in a map with one entry per key, `get` finds each entry's own UUID |
| `IndexPaging.PageIsMatchingUpTo` | src/main/java/com/jaeksoft/opensearchserver/GraphQLFunctions.java:92-97 | the answer is exactly the matching keys from the skipped prefix up to some stop key, in order; fewer than `rows` only when the map ran out |
| `IndexPaging.StopAfter` | src/main/java/com/jaeksoft/opensearchserver/GraphQLFunctions.java:92-96 | when more than `rows` keys match, some prefix of the keys holds exactly the first `rows` of them |
| `IndexPaging.PageFromStop` | src/main/java/com/jaeksoft/opensearchserver/GraphQLFunctions.java:92-99 | the collecting loop, stopped at the end of the map or with `rows` entries, holds the page |
| `IndexPaging.OffsetCountsRawKeys` | src/main/java/com/jaeksoft/opensearchserver/GraphQLFunctions.java:88-91 | over foo1, bar, foo2, baz with keywords foo and start 2, the answer is foo2: the offset counts non-matching keys too |
| `JavaLang.Contains` | src/main/java/com/jaeksoft/opensearchserver/GraphQLFunctions.java:94 | `String.contains`: a name that starts with the keyword contains it, and a name shorter than the keyword never does |
| `JavaLang.ContainsIff` | src/main/java/com/jaeksoft/opensearchserver/GraphQLFunctions.java:94 | `contains` holds exactly when the keyword occurs at some position of the name |
| `JavaLang.ContainsEmptyAndSelf` | src/main/java/com/jaeksoft/opensearchserver/GraphQLFunctions.java:94 | the empty keyword and the name itself are contained in every name |
| `JavaLang.IsWhitespace` | src/main/java/com/jaeksoft/opensearchserver/GraphQLFunctions.java:104 | `Character.isWhitespace`: space, tab, newline and return are whitespace; the non-breaking spaces U+00A0, U+2007 and U+202F are not; nothing above U+3000 is |
| `JavaLang.IsBlank` | src/main/java/com/jaeksoft/opensearchserver/GraphQLFunctions.java:104 | `String.isBlank`: the empty string is blank, and one non-whitespace character makes a string not blank |
| `JavaLang.TrimStart` | src/main/java/com/jaeksoft/opensearchserver/GraphQLFunctions.java:106 | a suffix of the name, only characters up to U+0020 removed, the first one left is not one |
| `JavaLang.TrimEnd` | src/main/java/com/jaeksoft/opensearchserver/GraphQLFunctions.java:106 | a prefix of the name, only characters up to U+0020 removed, the last one left is not one |
| `JavaLang.TrimmedParts` | src/main/java/com/jaeksoft/opensearchserver/GraphQLFunctions.java:106 | cutting a leading and then a trailing run of characters up to U+0020 leaves a slice of the name with no such character at either end |
| `JavaLang.Trim` | src/main/java/com/jaeksoft/opensearchserver/GraphQLFunctions.java:106 | a slice of the name cut only by characters up to U+0020, with no such character at either end |
| `JavaLang.TrimKeeps` | src/main/java/com/jaeksoft/opensearchserver/GraphQLFunctions.java:106 | a character above U+0020 survives `trim` |
| `JavaLang.TrimIdempotent` | src/main/java/com/jaeksoft/opensearchserver/GraphQLFunctions.java:114 | trimming a trimmed name changes nothing |
| `IndexNames.Refused` | src/main/java/com/jaeksoft/opensearchserver/GraphQLFunctions.java:102-115 | the guard refuses exactly a null or blank name: `isEmpty` adds nothing, since the empty string is blank |
| `IndexNames.ForwardedName` | src/main/java/com/jaeksoft/opensearchserver/GraphQLFunctions.java:102-115 | nothing is forwarded exactly when the name is null or blank; otherwise the forwarded name is the trimmed slice of it |
| `IndexNames.ForwardedNameStable` | src/main/java/com/jaeksoft/opensearchserver/GraphQLFunctions.java:104-106 | a non-blank name without hidden control characters is forwarded non-empty, and forwarding it again changes nothing |
| `IndexNames.WideSpaceKeptByTrim` | src/main/java/com/jaeksoft/opensearchserver/GraphQLFunctions.java:104-106 | the name " U+3000 a" passes the guard and is forwarded as "U+3000 a": `trim` keeps the Unicode spaces the guard counts as whitespace |
| `IndexNames.ControlOnlyNameForwardedEmpty` | src/main/java/com/jaeksoft/opensearchserver/GraphQLFunctions.java:104-106 | the name U+0001 passes the guard and is forwarded as the empty string |
| `GraphQL.GraphQLFunctions.CreateIndex` | src/main/java/com/jaeksoft/opensearchserver/GraphQLFunctions.java:102-108 | returns true exactly for an accepted name; only then does the service receive one create call with the trimmed name, and only then may its map change |
| `GraphQL.GraphQLFunctions.DeleteIndex` | src/main/java/com/jaeksoft/opensearchserver/GraphQLFunctions.java:110-115 | false, no call and no change for a refused name; otherwise one delete call with the trimmed name, and the service's answer for its map and call history at that moment |
| `GraphQL.GraphQLFunctions.WebCrawlList` | src/main/java/com/jaeksoft/opensearchserver/GraphQLFunctions.java:217-225 | one status entry per session in the web crawler's listing for its current sessions and call history, in its order |
| `GraphQL.GraphQLFunctions.FileCrawlList` | src/main/java/com/jaeksoft/opensearchserver/GraphQLFunctions.java:270-278 | one status entry per session in the file crawler's listing for its current sessions and call history, in its order |
| `GraphQL.StatusList` | src/main/java/com/jaeksoft/opensearchserver/GraphQLFunctions.java:223 | the `forEach` append yields one entry per listed session, same name and status, same order |
| `CrawlDefinitions.WithWebCollector` | src/main/java/com/jaeksoft/opensearchserver/GraphQLFunctions.java:231 | the settings gain `crawlCollectorFactory` set to the web collector class name; every other setting is kept |
| `CrawlDefinitions.BindIndex` | src/main/java/com/jaeksoft/opensearchserver/GraphQLFunctions.java:234 | the settings are kept, `index` is bound to the argument, every other variable is kept |
| `CrawlDefinitions.IndexOf` | src/main/java/com/jaeksoft/opensearchserver/GraphQLFunctions.java:242-243 | the bound `index`, or null exactly when it is unbound |
| `CrawlDefinitions.WebDefinition` | src/main/java/com/jaeksoft/opensearchserver/GraphQLFunctions.java:231-234 | the stored web definition has the web collector factory and reads back the given index |
| `CrawlDefinitions.FileDefinition` | src/main/java/com/jaeksoft/opensearchserver/GraphQLFunctions.java:284-286 | the stored file definition has the settings as given and reads back the given index |
| `CrawlDefinitions.WebDefinitionKeeps` | src/main/java/com/jaeksoft/opensearchserver/GraphQLFunctions.java:231-234 | the web definition adds exactly the collector key and the `index` variable and keeps everything else |
| `CrawlDefinitions.ReadBack` | src/main/java/com/jaeksoft/opensearchserver/GraphQLFunctions.java:240-249 | a definition gives its index and itself; null exactly on 404; every other status is thrown again unchanged |
| `CrawlDefinitions.ReadBackBoundIndex` | src/main/java/com/jaeksoft/opensearchserver/GraphQLFunctions.java:241-243 | reading back a definition bound to `index` gives that `index` |
| `Services.LookupIn` | src/main/java/com/jaeksoft/opensearchserver/GraphQLFunctions.java:241 | the session store answers the stored definition, 404 for an unknown name, or the status it is failing with |
| `Services.LookupAfterUpsert` | src/main/java/com/jaeksoft/opensearchserver/GraphQLFunctions.java:235-241 | after storing under a name, that name reads the definition back and other names read as before |
| `GraphQL.SettingsArgument.Put` | src/main/java/com/jaeksoft/opensearchserver/GraphQLFunctions.java:231 | `def.put(key, value)` binds the key in the caller's settings map and keeps every other key |
| `GraphQL.GraphQLFunctions.UpsertWebCrawl` | src/main/java/com/jaeksoft/opensearchserver/GraphQLFunctions.java:227-236 | the caller's settings map gains the collector factory in place; the web crawler stores the web definition under the name and logs the upsert; the status it reports for that call is returned; the file crawler is untouched |
| `GraphQL.GraphQLFunctions.GetWebCrawl` | src/main/java/com/jaeksoft/opensearchserver/GraphQLFunctions.java:238-250 | the result is `ReadBack` of what the web crawler answers for the name |
| `GraphQL.GraphQLFunctions.RunWebCrawl` | src/main/java/com/jaeksoft/opensearchserver/GraphQLFunctions.java:252-255 | one run call is logged and the status the web crawler reports for it is returned; the file crawler is untouched |
| `GraphQL.GraphQLFunctions.AbortWebCrawl` | src/main/java/com/jaeksoft/opensearchserver/GraphQLFunctions.java:257-262 | one stop call with the name and reason is logged, and the result is true whatever the service does; the file crawler is untouched |
| `GraphQL.GraphQLFunctions.DeleteWebCrawl` | src/main/java/com/jaeksoft/opensearchserver/GraphQLFunctions.java:264-268 | one remove call is logged, and the result is true whatever the service does; the file crawler is untouched |
| `GraphQL.GraphQLFunctions.UpsertFileCrawl` | src/main/java/com/jaeksoft/opensearchserver/GraphQLFunctions.java:280-288 | the file crawler stores the file definition under the name and logs the upsert; the settings argument is untouched; the status it reports for that call is returned; the web crawler is untouched |
| `GraphQL.GraphQLFunctions.GetFileCrawl` | src/main/java/com/jaeksoft/opensearchserver/GraphQLFunctions.java:290-302 | the result is `ReadBack` of what the file crawler answers for the name |
| `GraphQL.GraphQLFunctions.RunFileCrawl` | src/main/java/com/jaeksoft/opensearchserver/GraphQLFunctions.java:304-307 | one run call is logged and the status the file crawler reports for it is returned; the web crawler is untouched |
| `GraphQL.GraphQLFunctions.AbortFileCrawl` | src/main/java/com/jaeksoft/opensearchserver/GraphQLFunctions.java:309-314 | one stop call with the name and reason is logged, and the result is true whatever the service does; the web crawler is untouched |
| `GraphQL.GraphQLFunctions.DeleteFileCrawl` | src/main/java/com/jaeksoft/opensearchserver/GraphQLFunctions.java:316-320 | one remove call is logged, and the result is true whatever the service does; the web crawler is untouched |
| `GraphQL.GraphQLFunctions.constructor` | src/main/java/com/jaeksoft/opensearchserver/GraphQLFunctions.java:46-52 | the handlers hold the three services they were given; the web and file crawler services are distinct objects, recorded as `Valid()` |
| `CrawlRoundTrip.WebUpsertThenGet` | src/main/java/com/jaeksoft/opensearchserver/GraphQLFunctions.java:231-243 | upsert of a web crawl with index `i`, then get, returns index `i` and the stored definition with its collector factory |
| `CrawlRoundTrip.FileUpsertThenGet` | src/main/java/com/jaeksoft/opensearchserver/GraphQLFunctions.java:284-295 | upsert of a file crawl with index `i`, then get, returns index `i` and the settings as given |
| `CrawlRoundTrip.WebUpsertThenGetHandlers` | src/main/java/com/jaeksoft/opensearchserver/GraphQLFunctions.java:227-250 | calling the `upsertWebCrawl` handler and then the `getWebCrawl` handler on a web crawler that is not failing answers with the given index and the stored web definition |
| `CrawlRoundTrip.FileUpsertThenGetHandlers` | src/main/java/com/jaeksoft/opensearchserver/GraphQLFunctions.java:280-302 | calling the `upsertFileCrawl` handler and then the `getFileCrawl` handler on a file crawler that is not failing answers with the given index and the settings as given |
| `CrawlRoundTrip.GetUnknownIsNull` | src/main/java/com/jaeksoft/opensearchserver/GraphQLFunctions.java:244-246 | a get on a session never stored answers null rather than throwing |
| `CrawlRoundTrip.GetFaultRethrown` | src/main/java/com/jaeksoft/opensearchserver/GraphQLFunctions.java:296-301 | a failure status other than 404 is thrown again; 404 answers null |

## Left out

- `getDataFetchers` (GraphQLFunctions.java:55-77): routing-table registration only. It holds no logic.
- Server.java, front/src/App.jsx, front/src/WebCrawlEdit.tsx and AdvancedComposer.java: bootstrap, servlet wiring, the process-wide server singleton and user-interface code. None of it is handler logic.
- What the services do with create/delete index and run/stop/remove session calls, and how `getSessions` pages: these are not visible. The model records each call and leaves the new state, and each reply, as a function of the service's state, its call history and the call's arguments.
- Errors thrown by `getIndexes` (GraphQLFunctions.java:86), `getSessions` (:222, :275), `upsertSession`, `runSession`, `stopSession`, `removeSession`, `createUpdateIndex` and `deleteIndex`: the handlers do not catch them, and the model's services do not throw them. So "always true" and the other results hold for calls that return.
- Errors from `getSessionDefinition` (:241, :293) other than a `WebApplicationException`: the handlers do not catch them, and the model does not raise them. Only a `WebApplicationException` with a status is modelled, as the `fault` field.
- Jackson's write-then-read of the settings: modelled as the identity. A settings object Jackson cannot read as a crawl definition (an `IOException`) is not modelled.
- The `WebCrawlDefinition`/`FileCrawlDefinition` builders: modelled as a map update.
- `CrawlerCollector.VARIABLE_INDEX` and `CrawlerCollector.Web`: their definitions are not part of this model. The model assumes the values `"index"` and `"com.jaeksoft.opensearchserver.CrawlerCollector$Web"`.
- `CrawlerCollector.Variables` (:242, :294): its definition is not part of this model. `CrawlDefinitions.IndexOf` assumes its `index` field is the definition's `variables` entry for `"index"`, and null when that entry is absent. The read-back and round-trip lemmas rest on that assumption.
- Null `name`, `settings` or `index` arguments to the upsert, get, run, abort and delete handlers: they are taken as present. The web front end's upsert mutation declares `name`, `settings` and `index` as non-null (front/src/WebCrawlEdit.tsx:37); the schema itself is not part of this model. `aborting_reason` may be null.
- The `id` field of an `indexList` entry is the UUID itself. `UUID.toString` is not modelled.
- Passing `get(name)` for the current key: `IndexList` uses the value that the map holds for that key. `PageIdsAreStored` and `GetDistinct` show this is what `get` returns.
- Java strings are modelled as sequences of code points, not UTF-16 units. `isBlank`, `trim` and `contains` give the same answers either way for the characters involved.
- `Character.isWhitespace` is modelled from the Unicode space, line and paragraph separators current in the Java versions that have `isBlank`.
- 32-bit wrap-around of `start` and `rows`: not needed. Both counters only count down from a positive value to zero, which cannot overflow.
- Changes a service makes on its own, such as a running session's status advancing, or calls from other clients: not modelled. A service's state and replies change only through the logged calls of these handlers.
- Concurrency between requests: the handlers hold no shared state of their own.
