/** One request for a blob: from the cache, or from the first server whose bytes verify. */
module Serve {
  import opened Outcome
  import opened Text
  import opened MapSum
  import opened BlobCache

  /** What each server would reply to a fetch: bytes of a 200 answer within the size limit, or nothing. */
  datatype Server = Server(reply: Option<string>)

  datatype Response = NotFound | NotModified(etag: string) | Body(etag: string, body: string)

  datatype Request = Request(
    sha: string, servers: seq<Server>, ifNoneMatch: Option<string>,
    now: int, stored: bool, order: seq<string>, stuck: set<string>)

  /** Fetch: bytes are only ever returned when they hash to the digest asked for. */
  function Fetch(server: Server, digest: string -> string, sha: string): Option<string> {
    if server.reply.Some? && digest(server.reply.value) == sha then server.reply else None
  }

  /** The first server in order whose bytes verify. */
  function FetchFirst(servers: seq<Server>, digest: string -> string, sha: string): Option<string> {
    if servers == [] then None
    else
      var body := Fetch(servers[0], digest, sha);
      if body.Some? then body else FetchFirst(servers[1..], digest, sha)
  }

  function Respond(sha: string, body: string, ifNoneMatch: Option<string>): Response {
    if ifNoneMatch == Some(sha) then NotModified(sha) else Body(sha, body)
  }

  datatype Served = Served(response: Response, cache: Cache)

  /** serveBlob with a cache. */
  function ServeBlob(c: Cache, quota: int, digest: string -> string, req: Request): Served {
    if SizeAt(c.sizes, req.sha) > 0 then
      if req.sha !in c.disk then Served(NotFound, c)
      else Served(Respond(req.sha, c.disk[req.sha].body, req.ifNoneMatch), Opened(c, req.sha, req.now))
    else
      match FetchFirst(req.servers, digest, req.sha)
      case None => Served(NotFound, c)
      case Some(body) =>
        if body == "" then Served(NotFound, c)
        else Served(Respond(req.sha, body, req.ifNoneMatch),
                    AfterPut(c, quota, digest, req.sha, body, req.now, req.stored, req.order, req.stuck))
  }

  ghost predicate IsSound(c: Cache, digest: string -> string) { InStep(c) && NamesMatch(c, digest) }

  /** Fetching tries the servers in order, and fails only when none verifies. */
  lemma {:induction false} FetchFirstIsFirst(servers: seq<Server>, digest: string -> string, sha: string)
    ensures FetchFirst(servers, digest, sha).Some? ==>
              exists i :: 0 <= i < |servers| && Fetch(servers[i], digest, sha) == FetchFirst(servers, digest, sha)
                && forall j :: 0 <= j < i ==> Fetch(servers[j], digest, sha).None?
    ensures FetchFirst(servers, digest, sha).None? <==>
              forall i :: 0 <= i < |servers| ==> Fetch(servers[i], digest, sha).None?
    ensures FetchFirst(servers, digest, sha).Some? ==> digest(FetchFirst(servers, digest, sha).value) == sha
  {
    if servers != [] {
      var rest := servers[1..];
      FetchFirstIsFirst(rest, digest, sha);
      assert forall i :: 0 <= i < |rest| ==> rest[i] == servers[i + 1];
      assert forall i :: 0 < i < |servers| ==> servers[i] == rest[i - 1];
      if Fetch(servers[0], digest, sha).Some? {
        assert Fetch(servers[0], digest, sha) == FetchFirst(servers, digest, sha);
      } else if FetchFirst(rest, digest, sha).Some? {
        var i :| 0 <= i < |rest| && Fetch(rest[i], digest, sha) == FetchFirst(rest, digest, sha)
                 && forall j :: 0 <= j < i ==> Fetch(rest[j], digest, sha).None?;
      }
    }
  }

  // ---- The handlers ----

  method FetchFirstLoop(servers: seq<Server>, digest: string -> string, sha: string) returns (body: Option<string>)
    ensures body == FetchFirst(servers, digest, sha)
  {
    for i := 0 to |servers|
      invariant FetchFirst(servers[i..], digest, sha) == FetchFirst(servers, digest, sha)
    {
      body := Fetch(servers[i], digest, sha);
      if body.Some? { return; }
    }
    return None;
  }

  /** serveBlob on the cache object; the order of its eviction comes back with the response. */
  method HandleBlob(
      blobs: BlobStore, sha: string, servers: seq<Server>, ifNoneMatch: Option<string>,
      now: int, stored: bool, stuck: set<string>)
    returns (r: Response, ghost order: seq<string>)
    modifies blobs
    ensures Served(r, blobs.View())
         == ServeBlob(old(blobs.View()), blobs.quota, blobs.digest,
                      Request(sha, servers, ifNoneMatch, now, stored, order, stuck))
    ensures var body := FetchFirst(servers, blobs.digest, sha);
            stored && body.Some? && body.value != "" && SizeAt(old(blobs.sizes), sha) <= 0 ==>
              IsLruOrder(order, Inserted(old(blobs.View()), sha, body.value, now).lastUse)
    ensures old(IsSound(blobs.View(), blobs.digest)) && r.Body? ==> r.etag == sha && blobs.digest(r.body) == sha
  {
    order := [];
    FetchFirstIsFirst(servers, blobs.digest, sha);
    var cached := blobs.Has(sha);
    if cached {
      var copy := blobs.Open(sha, now);
      if copy.None? { return NotFound, order; }
      return Respond(sha, copy.value, ifNoneMatch), order;
    }
    var body := FetchFirstLoop(servers, blobs.digest, sha);
    if body.None? || body.value == "" { return NotFound, order; }
    var put;
    put, order := blobs.Put(sha, body.value, now, stored, stuck);
    return Respond(sha, body.value, ifNoneMatch), order;
  }
}
