/**
 * The index and crawler services the handlers call, reduced to what the
 * handlers can observe. The index service exposes its name-to-UUID map; a
 * crawler service stores one definition per session name. Every call a
 * handler makes is recorded in order. What a service answers, and what the
 * calls the model does not interpret do to its state, are left open: each
 * is a function, chosen when the service is built, of the service's state
 * and its record of calls at the moment of the call, and of the call's
 * arguments.
 */
module Services {
  import opened Wrappers
  import opened JavaLang
  import opened IndexPaging
  import opened CrawlDefinitions

  /** A call the index service receives from `createIndex` or `deleteIndex`. */
  datatype IndexRequest = CreateUpdateIndex(name: string) | DeleteIndex(name: string)

  class IndexService {
    /** What `getIndexes()` answers. */
    var indexes: IndexMap
    /** The create and delete calls received so far, oldest first. */
    var requests: seq<IndexRequest>
    /** What a create or delete call does to the index map. */
    const afterRequest: (IndexMap, seq<IndexRequest>, IndexRequest) -> IndexMap
    /** What `deleteIndex(name)` answers, given the map and the calls before it. */
    const deleteReply: (IndexMap, seq<IndexRequest>, string) -> bool

    constructor (indexes: IndexMap,
                 afterRequest: (IndexMap, seq<IndexRequest>, IndexRequest) -> IndexMap,
                 deleteReply: (IndexMap, seq<IndexRequest>, string) -> bool)
      ensures this.indexes == indexes && requests == []
      ensures this.afterRequest == afterRequest && this.deleteReply == deleteReply
    {
      this.indexes := indexes;
      this.afterRequest := afterRequest;
      this.deleteReply := deleteReply;
      requests := [];
    }

    method GetIndexes() returns (m: IndexMap)
      ensures m == indexes
    {
      m := indexes;
    }

    method CreateUpdateIndex(name: string)
      modifies this`indexes, this`requests
      ensures indexes == afterRequest(old(indexes), old(requests), IndexRequest.CreateUpdateIndex(name))
      ensures requests == old(requests) + [IndexRequest.CreateUpdateIndex(name)]
    {
      indexes := afterRequest(indexes, requests, IndexRequest.CreateUpdateIndex(name));
      requests := requests + [IndexRequest.CreateUpdateIndex(name)];
    }

    method DeleteIndex(name: string) returns (deleted: bool)
      modifies this`indexes, this`requests
      ensures deleted == deleteReply(old(indexes), old(requests), name)
      ensures indexes == afterRequest(old(indexes), old(requests), IndexRequest.DeleteIndex(name))
      ensures requests == old(requests) + [IndexRequest.DeleteIndex(name)]
    {
      deleted := deleteReply(indexes, requests, name);
      indexes := afterRequest(indexes, requests, IndexRequest.DeleteIndex(name));
      requests := requests + [IndexRequest.DeleteIndex(name)];
    }
  }

  /** A session status report, opaque to the handlers. */
  datatype SessionStatus = SessionStatus(fields: map<string, Json>)

  /** A call a crawler service receives from the session handlers. */
  datatype SessionRequest =
    | UpsertSession(name: string, definition: Definition)
    | RunSession(name: string)
    | StopSession(name: string, reason: Option<string>)
    | RemoveSession(name: string)

  /** The session definitions a crawler service stores. */
  type SessionStore = map<string, Definition>

  /**
   * What `getSessionDefinition(name)` answers: the error status the service
   * is failing with, if any; else the stored definition, or a 404 when no
   * session has that name.
   */
  function LookupIn(sessions: SessionStore, fault: Option<HttpStatus>, name: string): (r: Result<Definition, HttpStatus>)
    ensures fault.Some? ==> r == Err(fault.value)
    ensures fault.None? ==> (r.Ok? <==> name in sessions)
    ensures fault.None? && r.Err? ==> r.error == NotFound
    ensures r.Ok? ==> name in sessions && r.value == sessions[name]
  {
    if fault.Some? then Err(fault.value)
    else if name in sessions then Ok(sessions[name])
    else Err(NotFound)
  }

  class CrawlService {
    /** The stored definition of each session. */
    var sessions: SessionStore
    /** When set, the status every `getSessionDefinition` call fails with. */
    var fault: Option<HttpStatus>
    /** The calls received so far, oldest first. */
    var requests: seq<SessionRequest>
    /** What a run, stop or remove call does to the stored definitions. */
    const afterRequest: (SessionStore, seq<SessionRequest>, SessionRequest) -> SessionStore
    /** The status `upsertSession(name, definition)` reports. */
    const upsertReply: (SessionStore, seq<SessionRequest>, string, Definition) -> SessionStatus
    /** The status `runSession(name)` reports. */
    const runReply: (SessionStore, seq<SessionRequest>, string) -> SessionStatus
    /** What `getSessions(keywords, start, rows, ...)` answers, in iteration order. */
    const listing: (SessionStore, seq<SessionRequest>, Option<string>, Option<Int32>, Option<Int32>)
                     -> seq<(string, SessionStatus)>

    constructor (sessions: SessionStore, fault: Option<HttpStatus>,
                 afterRequest: (SessionStore, seq<SessionRequest>, SessionRequest) -> SessionStore,
                 upsertReply: (SessionStore, seq<SessionRequest>, string, Definition) -> SessionStatus,
                 runReply: (SessionStore, seq<SessionRequest>, string) -> SessionStatus,
                 listing: (SessionStore, seq<SessionRequest>, Option<string>, Option<Int32>, Option<Int32>)
                            -> seq<(string, SessionStatus)>)
      ensures this.sessions == sessions && this.fault == fault && requests == []
      ensures this.afterRequest == afterRequest && this.upsertReply == upsertReply
      ensures this.runReply == runReply && this.listing == listing
    {
      this.sessions := sessions;
      this.fault := fault;
      this.afterRequest := afterRequest;
      this.upsertReply := upsertReply;
      this.runReply := runReply;
      this.listing := listing;
      requests := [];
    }

    method GetSessions(keywords: Option<string>, start: Option<Int32>, rows: Option<Int32>)
      returns (r: seq<(string, SessionStatus)>)
      ensures r == listing(sessions, requests, keywords, start, rows)
    {
      r := listing(sessions, requests, keywords, start, rows);
    }

    method UpsertSession(name: string, d: Definition) returns (status: SessionStatus)
      modifies this`sessions, this`requests
      ensures status == upsertReply(old(sessions), old(requests), name, d)
      ensures sessions == old(sessions)[name := d]
      ensures requests == old(requests) + [SessionRequest.UpsertSession(name, d)]
    {
      status := upsertReply(sessions, requests, name, d);
      sessions := sessions[name := d];
      requests := requests + [SessionRequest.UpsertSession(name, d)];
    }

    method GetSessionDefinition(name: string) returns (r: Result<Definition, HttpStatus>)
      ensures r == LookupIn(sessions, fault, name)
    {
      if fault.Some? {
        r := Err(fault.value);
      } else if name in sessions {
        r := Ok(sessions[name]);
      } else {
        r := Err(NotFound);
      }
    }

    method RunSession(name: string) returns (status: SessionStatus)
      modifies this`sessions, this`requests
      ensures status == runReply(old(sessions), old(requests), name)
      ensures sessions == afterRequest(old(sessions), old(requests), SessionRequest.RunSession(name))
      ensures requests == old(requests) + [SessionRequest.RunSession(name)]
    {
      status := runReply(sessions, requests, name);
      sessions := afterRequest(sessions, requests, SessionRequest.RunSession(name));
      requests := requests + [SessionRequest.RunSession(name)];
    }

    method StopSession(name: string, reason: Option<string>)
      modifies this`sessions, this`requests
      ensures sessions == afterRequest(old(sessions), old(requests), SessionRequest.StopSession(name, reason))
      ensures requests == old(requests) + [SessionRequest.StopSession(name, reason)]
    {
      sessions := afterRequest(sessions, requests, SessionRequest.StopSession(name, reason));
      requests := requests + [SessionRequest.StopSession(name, reason)];
    }

    method RemoveSession(name: string)
      modifies this`sessions, this`requests
      ensures sessions == afterRequest(old(sessions), old(requests), SessionRequest.RemoveSession(name))
      ensures requests == old(requests) + [SessionRequest.RemoveSession(name)]
    {
      sessions := afterRequest(sessions, requests, SessionRequest.RemoveSession(name));
      requests := requests + [SessionRequest.RemoveSession(name)];
    }
  }

  /**
   * Upserting a definition under `name` and then reading `name` back gives
   * that definition, and leaves what every other name reads unchanged.
   */
  lemma LookupAfterUpsert(sessions: SessionStore, name: string, d: Definition, other: string)
    ensures LookupIn(sessions[name := d], None, name) == Ok(d)
    ensures other != name ==> LookupIn(sessions[name := d], None, other) == LookupIn(sessions, None, other)
  {
  }
}
