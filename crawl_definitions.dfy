/**
 * Crawl session definitions as the upsert and get handlers see them: a
 * string-keyed settings object plus a `variables` map, the enrichment the
 * upsert handlers apply before storing one, and the read-back of the
 * `index` variable by the get handlers.
 */
module CrawlDefinitions {
  import opened Wrappers

  /** A JSON value, as the GraphQL `settings` argument holds them. */
  datatype Json =
    | JNull
    | JBool(b: bool)
    | JNumber(n: int)
    | JString(s: string)
    | JArray(items: seq<Json>)
    | JObject(members: map<string, Json>)

  /**
   * A web or file crawl definition: its settings and its `variables` map.
   * Writing one to JSON and reading it back gives the same value.
   */
  datatype Definition = Definition(settings: map<string, Json>, variables: map<string, string>)

  /** The settings key naming the collector the crawler must use. */
  const CollectorFactoryKey: string := "crawlCollectorFactory"

  /** `CrawlerCollector.Web.class.getName()`. */
  const WebCollectorClass: string := "com.jaeksoft.opensearchserver.CrawlerCollector$Web"

  /** `CrawlerCollector.VARIABLE_INDEX`: the variable naming the target index. */
  const IndexVariable: string := "index"

  /** HTTP status of a `WebApplicationException`. */
  type HttpStatus = int

  const NotFound: HttpStatus := 404

  /** What `getWebCrawl` and `getFileCrawl` answer: the bound index and the definition. */
  datatype Crawl = Crawl(index: Option<string>, settings: Definition)

  /** The settings of a web crawl once the collector factory is set. */
  function WithWebCollector(settings: map<string, Json>): (r: map<string, Json>)
    ensures r.Keys == settings.Keys + {CollectorFactoryKey}
    ensures r[CollectorFactoryKey] == JString(WebCollectorClass)
    ensures forall k :: k in settings && k != CollectorFactoryKey ==> r[k] == settings[k]
  {
    settings[CollectorFactoryKey := JString(WebCollectorClass)]
  }

  /** `Definition.of(d).variable(VARIABLE_INDEX, index).build()`. */
  function BindIndex(d: Definition, index: string): (r: Definition)
    ensures r.settings == d.settings
    ensures r.variables.Keys == d.variables.Keys + {IndexVariable}
    ensures r.variables[IndexVariable] == index
    ensures forall k :: k in d.variables && k != IndexVariable ==> r.variables[k] == d.variables[k]
  {
    d.(variables := d.variables[IndexVariable := index])
  }

  /** `new CrawlerCollector.Variables(d.variables).index`: null when unbound. */
  function IndexOf(d: Definition): (r: Option<string>)
    ensures r.Some? <==> IndexVariable in d.variables
    ensures r.Some? ==> r.value == d.variables[IndexVariable]
  {
    if IndexVariable in d.variables then Some(d.variables[IndexVariable]) else None
  }

  /** The definition `upsertWebCrawl` sends to the web crawler service. */
  function WebDefinition(settings: map<string, Json>, variables: map<string, string>, index: string): (r: Definition)
    ensures CollectorFactoryKey in r.settings && r.settings[CollectorFactoryKey] == JString(WebCollectorClass)
    ensures IndexOf(r) == Some(index)
  {
    BindIndex(Definition(WithWebCollector(settings), variables), index)
  }

  /** The definition `upsertFileCrawl` sends to the file crawler service. */
  function FileDefinition(settings: map<string, Json>, variables: map<string, string>, index: string): (r: Definition)
    ensures r.settings == settings
    ensures IndexOf(r) == Some(index)
  {
    BindIndex(Definition(settings, variables), index)
  }

  /**
   * The get handlers' treatment of the service's answer: a definition gives
   * its bound index and itself, a 404 gives null, and any other error
   * status is thrown again unchanged.
   */
  function ReadBack(reply: Result<Definition, HttpStatus>): (r: Result<Option<Crawl>, HttpStatus>)
    ensures r.Err? <==> reply.Err? && reply.error != NotFound
    ensures r.Err? ==> r.error == reply.error
    ensures r == Ok(None) <==> reply == Err(NotFound)
    ensures reply.Ok? ==> r == Ok(Some(Crawl(IndexOf(reply.value), reply.value)))
  {
    match reply
    case Ok(d) => Ok(Some(Crawl(IndexOf(d), d)))
    case Err(status) => if status == NotFound then Ok(None) else Err(status)
  }

  /**
   * A web definition keeps every setting of the argument except the
   * collector factory, every variable except `index`, and nothing else.
   */
  lemma WebDefinitionKeeps(settings: map<string, Json>, variables: map<string, string>, index: string)
    ensures var d := WebDefinition(settings, variables, index);
            && d.settings.Keys == settings.Keys + {CollectorFactoryKey}
            && d.variables.Keys == variables.Keys + {IndexVariable}
            && (forall k :: k in settings && k != CollectorFactoryKey ==> d.settings[k] == settings[k])
            && (forall k :: k in variables && k != IndexVariable ==> d.variables[k] == variables[k])
  {
  }

  /** Reading back a stored web or file definition returns the index it was bound to. */
  lemma ReadBackBoundIndex(d: Definition, index: string)
    ensures ReadBack(Ok(BindIndex(d, index))) == Ok(Some(Crawl(Some(index), BindIndex(d, index))))
  {
  }
}
