/**
 * The GraphQL request handlers: each turns the arguments of one query or
 * mutation into calls on the index service or on the web or file crawler
 * service, and their answers into the handler's result.
 */
module GraphQL {
  import opened Wrappers
  import opened JavaLang
  import opened IndexNames
  import opened IndexPaging
  import opened CrawlDefinitions
  import opened Services

  /** `WebCrawlStatus` and `FileCrawlStatus`: a session name and its status. */
  datatype CrawlStatus = CrawlStatus(name: string, status: SessionStatus)

  /**
   * The `settings` argument of an upsert: a mutable map from the GraphQL
   * request, whose `variables` entry is kept as a map of its own.
   */
  class SettingsArgument {
    var settings: map<string, Json>
    var variables: map<string, string>

    constructor (settings: map<string, Json>, variables: map<string, string>)
      ensures this.settings == settings && this.variables == variables
    {
      this.settings := settings;
      this.variables := variables;
    }

    /** `Map.put` on the settings. */
    method Put(key: string, value: Json)
      modifies this`settings
      ensures settings == old(settings)[key := value]
    {
      settings := settings[key := value];
    }
  }

  class GraphQLFunctions {
    const indexService: IndexService
    const webCrawlService: CrawlService
    const fileCrawlService: CrawlService

    /** The web and file crawler services are two distinct objects. */
    ghost predicate Valid() {
      webCrawlService != fileCrawlService
    }

    constructor (indexService: IndexService, webCrawlService: CrawlService, fileCrawlService: CrawlService)
      requires webCrawlService != fileCrawlService
      ensures Valid()
      ensures this.indexService == indexService
      ensures this.webCrawlService == webCrawlService
      ensures this.fileCrawlService == fileCrawlService
    {
      this.indexService := indexService;
      this.webCrawlService := webCrawlService;
      this.fileCrawlService := fileCrawlService;
    }

    /**
     * `indexList`: skip `start` keys of the index map (0 by default), then
     * collect up to `rows` keys (20 by default) whose name contains
     * `keywords`, with their UUIDs.
     */
    method IndexList(keywords: Option<string>, startArg: Option<Int32>, rowsArg: Option<Int32>)
      returns (result: seq<Index>)
      ensures result == Page(indexService.indexes, keywords, StartOrDefault(startArg), RowsOrDefault(rowsArg))
      ensures DistinctNames(indexService.indexes) ==>
                forall j :: 0 <= j < |result| ==> Get(indexService.indexes, result[j].name) == Some(result[j].id)
    {
      result := [];
      var start := StartOrDefault(startArg);
      var rows := RowsOrDefault(rowsArg);
      ghost var start0, rows0 := start, rows;
      var indices := indexService.GetIndexes();
      var next := 0;  // the iterator's position among the entries
      while start > 0 && next < |indices|
        invariant 0 <= next <= |indices|
        invariant start0 <= 0 ==> next == 0 && start == start0
        invariant start0 > 0 ==> 0 <= start && next + start == start0
      {
        next := next + 1;
        start := start - 1;
      }
      ghost var skip := next;
      assert skip == Skipped(start0, |indices|);
      while rows > 0 && next < |indices|
        invariant skip <= next <= |indices|
        invariant result == Matching(indices[skip..next], keywords)
        invariant rows0 <= 0 ==> next == skip && rows == rows0
        invariant rows0 > 0 ==> 0 <= rows && rows + |result| == rows0
      {
        var entry := indices[next];  // the key and the value `get` finds for it
        if Matches(keywords, entry.name) {
          CollectKeep(indices, skip, next, keywords);
          result := result + [Index(entry.name, entry.id)];
          rows := rows - 1;
        } else {
          CollectDrop(indices, skip, next, keywords);
        }
        next := next + 1;
      }
      PageFromStop(indices, keywords, start0, rows0, next);
      if DistinctNames(indices) {
        PageIdsAllStored(indices, keywords, start0, rows0);
      }
    }

    /** `createIndex`: a valid name is sent trimmed to the index service and the answer is true. */
    method CreateIndex(name: Option<string>) returns (ok: bool)
      modifies indexService`indexes, indexService`requests
      ensures ok == ForwardedName(name).Some?
      ensures indexService.requests == old(indexService.requests)
                + if ok then [IndexRequest.CreateUpdateIndex(ForwardedName(name).value)] else []
      ensures indexService.indexes
                == if ok then indexService.afterRequest(old(indexService.indexes), old(indexService.requests),
                                                        IndexRequest.CreateUpdateIndex(ForwardedName(name).value))
                   else old(indexService.indexes)
    {
      if name.None? || |name.value| == 0 || IsBlank(name.value) {
        return false;
      }
      indexService.CreateUpdateIndex(Trim(name.value));
      return true;
    }

    /** `deleteIndex`: a valid name is sent trimmed to the index service, whose answer is returned. */
    method DeleteIndex(name: Option<string>) returns (ok: bool)
      modifies indexService`indexes, indexService`requests
      ensures ok == (ForwardedName(name).Some?
                     && indexService.deleteReply(old(indexService.indexes), old(indexService.requests),
                                                 ForwardedName(name).value))
      ensures indexService.requests == old(indexService.requests)
                + if ForwardedName(name).Some? then [IndexRequest.DeleteIndex(ForwardedName(name).value)] else []
      ensures indexService.indexes
                == if ForwardedName(name).Some?
                   then indexService.afterRequest(old(indexService.indexes), old(indexService.requests),
                                                  IndexRequest.DeleteIndex(ForwardedName(name).value))
                   else old(indexService.indexes)
    {
      if name.None? || |name.value| == 0 || IsBlank(name.value) {
        return false;
      }
      ok := indexService.DeleteIndex(Trim(name.value));
    }

    /** `webCrawlList`: the crawler's answer, one status per session, in its order. */
    method WebCrawlList(keywords: Option<string>, startArg: Option<Int32>, rowsArg: Option<Int32>)
      returns (result: seq<CrawlStatus>)
      ensures var sessions := webCrawlService.listing(webCrawlService.sessions, webCrawlService.requests,
                                                     keywords, startArg, rowsArg);
              |result| == |sessions|
              && forall j :: 0 <= j < |result| ==> result[j] == CrawlStatus(sessions[j].0, sessions[j].1)
    {
      var sessions := webCrawlService.GetSessions(keywords, startArg, rowsArg);
      result := StatusList(sessions);
    }

    /** `fileCrawlList`: the crawler's answer, one status per session, in its order. */
    method FileCrawlList(keywords: Option<string>, startArg: Option<Int32>, rowsArg: Option<Int32>)
      returns (result: seq<CrawlStatus>)
      ensures var sessions := fileCrawlService.listing(fileCrawlService.sessions, fileCrawlService.requests,
                                                     keywords, startArg, rowsArg);
              |result| == |sessions|
              && forall j :: 0 <= j < |result| ==> result[j] == CrawlStatus(sessions[j].0, sessions[j].1)
    {
      var sessions := fileCrawlService.GetSessions(keywords, startArg, rowsArg);
      result := StatusList(sessions);
    }

    /**
     * `upsertWebCrawl`: sets the web collector factory in the caller's
     * settings map, binds `index`, and stores the definition under `name`.
     */
    method UpsertWebCrawl(name: string, def: SettingsArgument, index: string) returns (r: CrawlStatus)
      requires Valid()
      modifies def`settings, webCrawlService`sessions, webCrawlService`requests
      ensures unchanged(fileCrawlService)
      ensures def.settings == WithWebCollector(old(def.settings))
      ensures def.variables == old(def.variables)
      ensures var d := WebDefinition(old(def.settings), old(def.variables), index);
              && webCrawlService.sessions == old(webCrawlService.sessions)[name := d]
              && webCrawlService.requests == old(webCrawlService.requests) + [SessionRequest.UpsertSession(name, d)]
              && r == CrawlStatus(name, webCrawlService.upsertReply(old(webCrawlService.sessions),
                                                                    old(webCrawlService.requests), name, d))
    {
      def.Put(CollectorFactoryKey, JString(WebCollectorClass));
      var definition := Definition(def.settings, def.variables);
      var withVar := BindIndex(definition, index);
      var status := webCrawlService.UpsertSession(name, withVar);
      r := CrawlStatus(name, status);
    }

    /** `getWebCrawl`: the stored definition and its index, null on a 404, other errors thrown. */
    method GetWebCrawl(name: string) returns (r: Result<Option<Crawl>, HttpStatus>)
      ensures r == ReadBack(LookupIn(webCrawlService.sessions, webCrawlService.fault, name))
    {
      var reply := webCrawlService.GetSessionDefinition(name);
      match reply
      case Ok(d) =>
        r := Ok(Some(Crawl(IndexOf(d), d)));
      case Err(status) =>
        if status == NotFound {
          r := Ok(None);
        } else {
          r := Err(status);
        }
    }

    /** `runWebCrawl`: starts the session and answers with the reported status. */
    method RunWebCrawl(name: string) returns (r: CrawlStatus)
      requires Valid()
      modifies webCrawlService`sessions, webCrawlService`requests
      ensures unchanged(fileCrawlService)
      ensures r == CrawlStatus(name, webCrawlService.runReply(old(webCrawlService.sessions), old(webCrawlService.requests), name))
      ensures webCrawlService.sessions == webCrawlService.afterRequest(old(webCrawlService.sessions), old(webCrawlService.requests), SessionRequest.RunSession(name))
      ensures webCrawlService.requests == old(webCrawlService.requests) + [SessionRequest.RunSession(name)]
    {
      var status := webCrawlService.RunSession(name);
      r := CrawlStatus(name, status);
    }

    /** `abortWebCrawl`: asks the service to stop the session; always true. */
    method AbortWebCrawl(name: string, abortingReason: Option<string>) returns (ok: bool)
      requires Valid()
      modifies webCrawlService`sessions, webCrawlService`requests
      ensures unchanged(fileCrawlService)
      ensures ok
      ensures webCrawlService.sessions == webCrawlService.afterRequest(old(webCrawlService.sessions), old(webCrawlService.requests),
                                                         SessionRequest.StopSession(name, abortingReason))
      ensures webCrawlService.requests
                == old(webCrawlService.requests) + [SessionRequest.StopSession(name, abortingReason)]
    {
      webCrawlService.StopSession(name, abortingReason);
      return true;
    }

    /** `deleteWebCrawl`: asks the service to remove the session; always true. */
    method DeleteWebCrawl(name: string) returns (ok: bool)
      requires Valid()
      modifies webCrawlService`sessions, webCrawlService`requests
      ensures unchanged(fileCrawlService)
      ensures ok
      ensures webCrawlService.sessions == webCrawlService.afterRequest(old(webCrawlService.sessions), old(webCrawlService.requests), SessionRequest.RemoveSession(name))
      ensures webCrawlService.requests == old(webCrawlService.requests) + [SessionRequest.RemoveSession(name)]
    {
      webCrawlService.RemoveSession(name);
      return true;
    }

    /** `upsertFileCrawl`: binds `index` and stores the definition under `name`. */
    method UpsertFileCrawl(name: string, def: SettingsArgument, index: string) returns (r: CrawlStatus)
      requires Valid()
      modifies fileCrawlService`sessions, fileCrawlService`requests
      ensures unchanged(webCrawlService)
      ensures var d := FileDefinition(old(def.settings), old(def.variables), index);
              && fileCrawlService.sessions == old(fileCrawlService.sessions)[name := d]
              && fileCrawlService.requests == old(fileCrawlService.requests) + [SessionRequest.UpsertSession(name, d)]
              && r == CrawlStatus(name, fileCrawlService.upsertReply(old(fileCrawlService.sessions),
                                                                     old(fileCrawlService.requests), name, d))
    {
      var definition := Definition(def.settings, def.variables);
      var withVar := BindIndex(definition, index);
      var status := fileCrawlService.UpsertSession(name, withVar);
      r := CrawlStatus(name, status);
    }

    /** `getFileCrawl`: the stored definition and its index, null on a 404, other errors thrown. */
    method GetFileCrawl(name: string) returns (r: Result<Option<Crawl>, HttpStatus>)
      ensures r == ReadBack(LookupIn(fileCrawlService.sessions, fileCrawlService.fault, name))
    {
      var reply := fileCrawlService.GetSessionDefinition(name);
      match reply
      case Ok(d) =>
        r := Ok(Some(Crawl(IndexOf(d), d)));
      case Err(status) =>
        if status == NotFound {
          r := Ok(None);
        } else {
          r := Err(status);
        }
    }

    /** `runFileCrawl`: starts the session and answers with the reported status. */
    method RunFileCrawl(name: string) returns (r: CrawlStatus)
      requires Valid()
      modifies fileCrawlService`sessions, fileCrawlService`requests
      ensures unchanged(webCrawlService)
      ensures r == CrawlStatus(name, fileCrawlService.runReply(old(fileCrawlService.sessions), old(fileCrawlService.requests), name))
      ensures fileCrawlService.sessions == fileCrawlService.afterRequest(old(fileCrawlService.sessions), old(fileCrawlService.requests), SessionRequest.RunSession(name))
      ensures fileCrawlService.requests == old(fileCrawlService.requests) + [SessionRequest.RunSession(name)]
    {
      var status := fileCrawlService.RunSession(name);
      r := CrawlStatus(name, status);
    }

    /** `abortFileCrawl`: asks the service to stop the session; always true. */
    method AbortFileCrawl(name: string, abortingReason: Option<string>) returns (ok: bool)
      requires Valid()
      modifies fileCrawlService`sessions, fileCrawlService`requests
      ensures unchanged(webCrawlService)
      ensures ok
      ensures fileCrawlService.sessions == fileCrawlService.afterRequest(old(fileCrawlService.sessions), old(fileCrawlService.requests),
                                                         SessionRequest.StopSession(name, abortingReason))
      ensures fileCrawlService.requests
                == old(fileCrawlService.requests) + [SessionRequest.StopSession(name, abortingReason)]
    {
      fileCrawlService.StopSession(name, abortingReason);
      return true;
    }

    /** `deleteFileCrawl`: asks the service to remove the session; always true. */
    method DeleteFileCrawl(name: string) returns (ok: bool)
      requires Valid()
      modifies fileCrawlService`sessions, fileCrawlService`requests
      ensures unchanged(webCrawlService)
      ensures ok
      ensures fileCrawlService.sessions == fileCrawlService.afterRequest(old(fileCrawlService.sessions), old(fileCrawlService.requests), SessionRequest.RemoveSession(name))
      ensures fileCrawlService.requests == old(fileCrawlService.requests) + [SessionRequest.RemoveSession(name)]
    {
      fileCrawlService.RemoveSession(name);
      return true;
    }
  }

  /** The list handlers' `forEach`: one status entry per session, appended in order. */
  method StatusList(sessions: seq<(string, SessionStatus)>) returns (result: seq<CrawlStatus>)
    ensures |result| == |sessions|
    ensures forall j :: 0 <= j < |result| ==> result[j] == CrawlStatus(sessions[j].0, sessions[j].1)
  {
    result := [];
    for i := 0 to |sessions|
      invariant |result| == i
      invariant forall j :: 0 <= j < i ==> result[j] == CrawlStatus(sessions[j].0, sessions[j].1)
    {
      result := result + [CrawlStatus(sessions[i].0, sessions[i].1)];
    }
  }
}

/** How the upsert and get handlers compose over one crawler service. */
module CrawlRoundTrip {
  import opened Wrappers
  import opened CrawlDefinitions
  import opened Services
  import opened GraphQL

  /**
   * After `upsertWebCrawl(name, settings, index)` on a service that is not
   * failing, `getWebCrawl(name)` answers with `index` and the stored web
   * definition, collector factory included.
   */
  lemma WebUpsertThenGet(sessions: SessionStore, name: string,
                         settings: map<string, Json>, variables: map<string, string>, index: string)
    ensures var d := WebDefinition(settings, variables, index);
            && ReadBack(LookupIn(sessions[name := d], None, name)) == Ok(Some(Crawl(Some(index), d)))
            && d.settings[CollectorFactoryKey] == JString(WebCollectorClass)
  {
    LookupAfterUpsert(sessions, name, WebDefinition(settings, variables, index), name);
  }

  /**
   * After `upsertFileCrawl(name, settings, index)` on a service that is not
   * failing, `getFileCrawl(name)` answers with `index` and the settings as given.
   */
  lemma FileUpsertThenGet(sessions: SessionStore, name: string,
                          settings: map<string, Json>, variables: map<string, string>, index: string)
    ensures var d := FileDefinition(settings, variables, index);
            && ReadBack(LookupIn(sessions[name := d], None, name)) == Ok(Some(Crawl(Some(index), d)))
            && d.settings == settings
  {
    LookupAfterUpsert(sessions, name, FileDefinition(settings, variables, index), name);
  }

  /** A get on a session that was never stored answers null rather than throwing. */
  lemma GetUnknownIsNull(sessions: SessionStore, name: string)
    requires name !in sessions
    ensures ReadBack(LookupIn(sessions, None, name)) == Ok(None)
  {
  }

  /** A get on a failing service throws the status again, unless that status is 404. */
  lemma GetFaultRethrown(sessions: SessionStore, fault: HttpStatus, name: string)
    ensures fault != NotFound ==> ReadBack(LookupIn(sessions, Some(fault), name)) == Err(fault)
    ensures fault == NotFound ==> ReadBack(LookupIn(sessions, Some(fault), name)) == Ok(None)
  {
  }

  /**
   * The same round trip through the handlers: `upsertWebCrawl` followed by
   * `getWebCrawl` on a web crawler that is not failing answers with the
   * index given and the definition stored.
   */
  method WebUpsertThenGetHandlers(g: GraphQLFunctions, name: string, def: SettingsArgument, index: string)
    returns (r: Result<Option<Crawl>, HttpStatus>)
    requires g.Valid() && g.webCrawlService.fault.None?
    modifies def`settings, g.webCrawlService`sessions, g.webCrawlService`requests
    ensures r == Ok(Some(Crawl(Some(index), WebDefinition(old(def.settings), old(def.variables), index))))
  {
    ghost var before := g.webCrawlService.sessions;
    var _ := g.UpsertWebCrawl(name, def, index);
    r := g.GetWebCrawl(name);
    WebUpsertThenGet(before, name, old(def.settings), old(def.variables), index);
  }

  /**
   * `upsertFileCrawl` followed by `getFileCrawl` on a file crawler that is
   * not failing answers with the index given and the settings as given.
   */
  method FileUpsertThenGetHandlers(g: GraphQLFunctions, name: string, def: SettingsArgument, index: string)
    returns (r: Result<Option<Crawl>, HttpStatus>)
    requires g.Valid() && g.fileCrawlService.fault.None?
    modifies g.fileCrawlService`sessions, g.fileCrawlService`requests
    ensures r == Ok(Some(Crawl(Some(index), FileDefinition(def.settings, def.variables, index))))
  {
    ghost var before := g.fileCrawlService.sessions;
    var _ := g.UpsertFileCrawl(name, def, index);
    r := g.GetFileCrawl(name);
    FileUpsertThenGet(before, name, def.settings, def.variables, index);
  }
}
