/**
 Serving blobs to many clients at once. Handlers run concurrently and only each
 call of the cache is one critical section, so a request is up to three steps: it
 asks the cache, then opens the cached file, or fetches and stores; and steps of
 other requests fall between them.
 */
module Serving {
  import opened Outcome
  import opened Text
  import opened MapSum
  import opened BlobCache
  import opened Serve

  datatype Query = Query(sha: string, ifNoneMatch: Option<string>)

  /** Where a request stands. */
  datatype Flight =
    | Cached(q: Query)                 // Has said yes
    | Missing(q: Query)                // Has said no
    | Fetched(q: Query, body: string)  // a server's bytes verified
    | Answered(q: Query, response: Response)

  datatype Gateway = Gateway(cache: Cache, flights: map<nat, Flight>)

  datatype Action =
    | Ask(t: nat, q: Query)
    | OpenFile(t: nat, now: int)
    | FetchBlob(t: nat, servers: seq<Server>)
    | StoreBlob(t: nat, now: int, stored: bool, order: seq<string>, stuck: set<string>)

  function Goto(g: Gateway, t: nat, f: Flight): Gateway { g.(flights := g.flights[t := f]) }

  predicate Opens(g: Gateway, a: Action) { a.OpenFile? && a.t in g.flights && g.flights[a.t].Cached? }
  predicate Fetches(g: Gateway, a: Action) { a.FetchBlob? && a.t in g.flights && g.flights[a.t].Missing? }
  predicate Stores(g: Gateway, a: Action) { a.StoreBlob? && a.t in g.flights && g.flights[a.t].Fetched? }

  /** What opening the cached file comes to. */
  function Opening(c: Cache, q: Query): Response {
    if q.sha in c.disk then Respond(q.sha, c.disk[q.sha].body, q.ifNoneMatch) else NotFound
  }

  /** What fetching comes to: an empty body is turned away like none. */
  function Fetching(digest: string -> string, q: Query, servers: seq<Server>): Flight {
    match FetchFirst(servers, digest, q.sha)
    case None => Answered(q, NotFound)
    case Some(body) => if body == "" then Answered(q, NotFound) else Fetched(q, body)
  }

  /** The cache call a step makes. */
  function CallOf(g: Gateway, a: Action): Option<Op> {
    if Opens(g, a) then Some(Open(g.flights[a.t].q.sha, a.now))
    else if Stores(g, a)
    then Some(Put(g.flights[a.t].q.sha, g.flights[a.t].body, a.now, a.stored, a.order, a.stuck))
    else None
  }

  function CacheAfter(quota: int, digest: string -> string, g: Gateway, a: Action): Cache {
    match CallOf(g, a)
    case None => g.cache
    case Some(op) => Apply(g.cache, quota, digest, op)
  }

  /** One step of serveBlob; an action that is not enabled changes nothing. */
  function Step(quota: int, digest: string -> string, g: Gateway, a: Action): Gateway {
    match a
    case Ask(t, q) =>
      if t in g.flights then g else Goto(g, t, if SizeAt(g.cache.sizes, q.sha) > 0 then Cached(q) else Missing(q))
    case OpenFile(t, _) =>
      if !Opens(g, a) then g
      else Goto(g, t, Answered(g.flights[t].q, Opening(g.cache, g.flights[t].q))).(cache := CacheAfter(quota, digest, g, a))
    case FetchBlob(t, servers) =>
      if !Fetches(g, a) then g else Goto(g, t, Fetching(digest, g.flights[t].q, servers))
    case StoreBlob(t, _, _, _, _) =>
      if !Stores(g, a) then g
      else
        var Fetched(q, body) := g.flights[t];
        Goto(g, t, Answered(q, Respond(q.sha, body, q.ifNoneMatch))).(cache := CacheAfter(quota, digest, g, a))
  }

  function Run(quota: int, digest: string -> string, g: Gateway, run: seq<Action>): Gateway {
    if run == [] then g else Step(quota, digest, Run(quota, digest, g, run[..|run| - 1]), run[|run| - 1])
  }

  /** The gateway as it starts: the cache scanned, no request in flight. */
  ghost function Started(disk: map<string, File>): Gateway { Gateway(Scanned(disk), map[]) }

  /** Requests ask for 64-character hashes, and a Put evicts in some least-recently-used order. */
  ghost predicate ProperStep(g: Gateway, a: Action) {
    && (a.Ask? ==> IsBlobName(a.q.sha))
    && (Stores(g, a) ==>
          IsLruOrder(a.order, Inserted(g.cache, g.flights[a.t].q.sha, g.flights[a.t].body, a.now).lastUse))
  }

  ghost predicate ProperServing(quota: int, digest: string -> string, g: Gateway, run: seq<Action>) {
    run == [] ||
    (ProperServing(quota, digest, g, run[..|run| - 1])
     && ProperStep(Run(quota, digest, g, run[..|run| - 1]), run[|run| - 1]))
  }

  // ---- The cache calls of a run ----

  function Calls(quota: int, digest: string -> string, g: Gateway, run: seq<Action>): seq<Op> {
    if run == [] then []
    else
      var before := run[..|run| - 1];
      Calls(quota, digest, g, before) + CallList(Run(quota, digest, g, before), run[|run| - 1])
  }

  function CallList(g: Gateway, a: Action): seq<Op> {
    match CallOf(g, a)
    case None => []
    case Some(op) => [op]
  }

  /** A flight asks for a blob's name, and what it fetched verifies. */
  ghost predicate AsksSoundly(digest: string -> string, f: Flight) {
    IsBlobName(f.q.sha) && (f.Fetched? ==> digest(f.body) == f.q.sha && f.body != "")
  }

  ghost predicate AllAskSoundly(digest: string -> string, g: Gateway) {
    forall t :: t in g.flights ==> AsksSoundly(digest, g.flights[t])
  }

  /** A body verifies and is spared exactly when the client has it. */
  ghost predicate ResponseIsSound(digest: string -> string, q: Query, r: Response) {
    && (r.Body? ==> r.etag == q.sha && digest(r.body) == q.sha && q.ifNoneMatch != Some(q.sha))
    && (r.NotModified? ==> r.etag == q.sha && q.ifNoneMatch == Some(q.sha))
  }

  ghost predicate AnswersAreSound(digest: string -> string, g: Gateway) {
    forall t :: t in g.flights && g.flights[t].Answered? ==> ResponseIsSound(digest, g.flights[t].q, g.flights[t].response)
  }

  lemma FetchingIsSound(digest: string -> string, q: Query, servers: seq<Server>)
    requires IsBlobName(q.sha)
    ensures AsksSoundly(digest, Fetching(digest, q, servers)) && Fetching(digest, q, servers).q == q
  {
    FetchFirstIsFirst(servers, digest, q.sha);
  }

  lemma StepAsksSoundly(quota: int, digest: string -> string, g: Gateway, a: Action)
    requires ProperStep(g, a) && AllAskSoundly(digest, g)
    ensures AllAskSoundly(digest, Step(quota, digest, g, a))
  {
    if Fetches(g, a) { FetchingIsSound(digest, g.flights[a.t].q, a.servers); }
  }

  lemma StepAnswersSoundly(quota: int, digest: string -> string, g: Gateway, a: Action)
    requires AllAskSoundly(digest, g) && AnswersAreSound(digest, g) && NamesMatch(g.cache, digest)
    ensures AnswersAreSound(digest, Step(quota, digest, g, a))
  {}

  lemma CallKeepsContents(c: Cache, quota: int, digest: string -> string, op: Op)
    requires NamesMatch(c, digest)
    ensures NamesMatch(Apply(c, quota, digest, op), digest)
  {
    if op.Put? { PutKeepsContents(c, quota, digest, op.sha, op.body, op.now, op.stored, op.order, op.stuck); }
  }

  lemma CacheStep(quota: int, digest: string -> string, g: Gateway, a: Action)
    ensures Step(quota, digest, g, a).cache == CacheAfter(quota, digest, g, a)
  {}

  lemma CallSnoc(c: Cache, quota: int, digest: string -> string, calls: seq<Op>, op: Op)
    requires ProperRun(c, quota, digest, calls) && Proper(BlobCache.Run(c, quota, digest, calls), op)
    ensures ProperRun(c, quota, digest, calls + [op])
    ensures BlobCache.Run(c, quota, digest, calls + [op]) == Apply(BlobCache.Run(c, quota, digest, calls), quota, digest, op)
  {
    assert (calls + [op])[..|calls|] == calls;
  }

  /** A run's cache is what its cache calls make of it, one after another. */
  lemma {:induction false} CacheIsItsCalls(
      disk: map<string, File>, quota: int, digest: string -> string, run: seq<Action>)
    requires ProperServing(quota, digest, Started(disk), run)
    ensures var g := Run(quota, digest, Started(disk), run);
            && g.cache == BlobCache.Run(Scanned(disk), quota, digest, Calls(quota, digest, Started(disk), run))
            && ProperRun(Scanned(disk), quota, digest, Calls(quota, digest, Started(disk), run))
            && AllAskSoundly(digest, g)
  {
    if run != [] {
      var before, a := run[..|run| - 1], run[|run| - 1];
      CacheIsItsCalls(disk, quota, digest, before);
      var g, calls := Run(quota, digest, Started(disk), before), Calls(quota, digest, Started(disk), before);
      CacheStep(quota, digest, g, a);
      match CallOf(g, a) {
        case None => assert calls + [] == calls;
        case Some(op) =>
          assert Proper(g.cache, op);
          CallSnoc(Scanned(disk), quota, digest, calls, op);
      }
      StepAsksSoundly(quota, digest, g, a);
    }
  }

  /**
   From a directory whose blobs hash to their names, in every interleaving of any
   number of requests: every body answered has the digest its ETag names, the cache's
   maps stay in step and its blobs true to their names, and the counter exceeds the
   stored bytes by exactly what the run's Puts have overwritten.
   */
  lemma {:induction false} EveryBodyVerifies(
      disk: map<string, File>, quota: int, digest: string -> string, run: seq<Action>)
    requires IsDigest(digest) && NamesMatch(Scanned(disk), digest)
    requires ProperServing(quota, digest, Started(disk), run)
    ensures var g := Run(quota, digest, Started(disk), run);
            && AnswersAreSound(digest, g) && NamesMatch(g.cache, digest) && InStep(g.cache)
            && Drift(g.cache) == TotalOvercount(Scanned(disk), quota, digest, Calls(quota, digest, Started(disk), run))
  {
    CacheIsItsCalls(disk, quota, digest, run);
    RunDrift(disk, quota, digest, Calls(quota, digest, Started(disk), run));
    if run != [] {
      var before, a := run[..|run| - 1], run[|run| - 1];
      EveryBodyVerifies(disk, quota, digest, before);
      var g := Run(quota, digest, Started(disk), before);
      CacheIsItsCalls(disk, quota, digest, before);
      StepAnswersSoundly(quota, digest, g, a);
      CacheStep(quota, digest, g, a);
      if CallOf(g, a).Some? { CallKeepsContents(g.cache, quota, digest, CallOf(g, a).value); }
    }
  }

  // ---- The states of a run ----

  ghost predicate IsTrace(quota: int, digest: string -> string, states: seq<Gateway>, run: seq<Action>) {
    && |states| == |run| + 1
    && forall i :: 0 <= i < |run| ==> Step(quota, digest, states[i], run[i]) == states[i + 1]
  }

  /** The states a run goes through. */
  function History(quota: int, digest: string -> string, g: Gateway, run: seq<Action>): (h: seq<Gateway>)
    ensures |h| == |run| + 1 && h[|run|] == Run(quota, digest, g, run)
  {
    if run == [] then [g]
    else History(quota, digest, g, run[..|run| - 1]) + [Run(quota, digest, g, run)]
  }

  lemma TraceSnoc(quota: int, digest: string -> string, h: seq<Gateway>, before: seq<Action>, a: Action, after: Gateway)
    requires IsTrace(quota, digest, h, before) && Step(quota, digest, h[|before|], a) == after
    ensures IsTrace(quota, digest, h + [after], before + [a])
  {}

  lemma {:induction false} HistoryIsTrace(quota: int, digest: string -> string, g: Gateway, run: seq<Action>)
    ensures IsTrace(quota, digest, History(quota, digest, g, run), run) && History(quota, digest, g, run)[0] == g
  {
    if run != [] {
      var before, a := run[..|run| - 1], run[|run| - 1];
      HistoryIsTrace(quota, digest, g, before);
      TraceSnoc(quota, digest, History(quota, digest, g, before), before, a, Run(quota, digest, g, run));
      assert run == before + [a];
    }
  }

  lemma {:induction false} HistoryPrefix(quota: int, digest: string -> string, g: Gateway, run: seq<Action>, k: nat)
    requires k <= |run|
    ensures History(quota, digest, g, run)[k] == Run(quota, digest, g, run[..k])
    ensures ProperServing(quota, digest, g, run) ==> ProperServing(quota, digest, g, run[..k])
    decreases |run|
  {
    if k < |run| {
      HistoryPrefix(quota, digest, g, run[..|run| - 1], k);
      assert run[..|run| - 1][..k] == run[..k];
    } else {
      assert run[..k] == run;
    }
  }

  // ---- When the counter stays exact ----

  /** A request about to store a blob that has become live, and not empty, since it asked. */
  predicate Overtaken(g: Gateway, a: Action) {
    Stores(g, a) && a.stored && SizeAt(g.cache.sizes, g.flights[a.t].q.sha) > 0
  }

  predicate OvertakenAt(h: seq<Gateway>, run: seq<Action>, k: int) {
    0 <= k < |run| && k < |h| && Overtaken(h[k], run[k])
  }

  ghost predicate NoneOvertaken(h: seq<Gateway>, run: seq<Action>) { forall k :: !OvertakenAt(h, run, k) }

  lemma NoneOvertakenSnoc(h: seq<Gateway>, run: seq<Action>, g: Gateway, a: Action, after: Gateway)
    requires |h| == |run| + 1 && h[|run|] == g
    ensures NoneOvertaken(h + [after], run + [a]) <==> NoneOvertaken(h, run) && !Overtaken(g, a)
  {
    forall k
      ensures OvertakenAt(h + [after], run + [a], k) <==> OvertakenAt(h, run, k) || (k == |run| && Overtaken(g, a))
    {}
    assert OvertakenAt(h + [after], run + [a], |run|) <==> OvertakenAt(h, run, |run|) || Overtaken(g, a);
  }

  lemma RePutSnoc(c: Cache, quota: int, digest: string -> string, calls: seq<Op>, op: Op)
    ensures RePutsLive(c, quota, digest, calls + [op]) <==>
              RePutsLive(c, quota, digest, calls)
              || (op.Put? && op.stored && digest(op.body) == op.sha
                  && SizeAt(BlobCache.Run(c, quota, digest, calls).sizes, op.sha) > 0)
  {
    assert (calls + [op])[..|calls|] == calls;
  }

  lemma RePutsLiveStep(c: Cache, quota: int, digest: string -> string, calls: seq<Op>, g: Gateway, a: Action)
    requires g.cache == BlobCache.Run(c, quota, digest, calls) && AllAskSoundly(digest, g)
    ensures RePutsLive(c, quota, digest, calls + CallList(g, a)) <==> RePutsLive(c, quota, digest, calls) || Overtaken(g, a)
  {
    match CallOf(g, a) {
      case None => assert calls + [] == calls;
      case Some(op) => RePutSnoc(c, quota, digest, calls, op);
    }
  }

  lemma OvertakenSnoc(quota: int, digest: string -> string, g: Gateway, before: seq<Action>, a: Action)
    ensures NoneOvertaken(History(quota, digest, g, before + [a]), before + [a])
       <==> NoneOvertaken(History(quota, digest, g, before), before) && !Overtaken(Run(quota, digest, g, before), a)
  {
    var run := before + [a];
    assert run[..|before|] == before;
    NoneOvertakenSnoc(History(quota, digest, g, before), before, Run(quota, digest, g, before), a, Run(quota, digest, g, run));
  }

  lemma CallsSnoc(quota: int, digest: string -> string, g: Gateway, before: seq<Action>, a: Action)
    ensures Calls(quota, digest, g, before + [a])
         == Calls(quota, digest, g, before) + CallList(Run(quota, digest, g, before), a)
  {
    assert (before + [a])[..|before|] == before;
  }

  lemma {:induction false} RePutsAreOvertakings(
      disk: map<string, File>, quota: int, digest: string -> string, run: seq<Action>)
    requires ProperServing(quota, digest, Started(disk), run)
    ensures NoneOvertaken(History(quota, digest, Started(disk), run), run)
       <==> !RePutsLive(Scanned(disk), quota, digest, Calls(quota, digest, Started(disk), run))
  {
    if run != [] {
      var before, a, start := run[..|run| - 1], run[|run| - 1], Started(disk);
      assert run == before + [a];
      RePutsAreOvertakings(disk, quota, digest, before);
      CacheIsItsCalls(disk, quota, digest, before);
      CallsSnoc(quota, digest, start, before, a);
      OvertakenSnoc(quota, digest, start, before, a);
      RePutsLiveStep(Scanned(disk), quota, digest, Calls(quota, digest, start, before), Run(quota, digest, start, before), a);
    }
  }

  /** The counter is exact if and only if no request stored a blob that had become live since it asked. */
  lemma ExactIffNoneOvertaken(disk: map<string, File>, quota: int, digest: string -> string, run: seq<Action>)
    requires IsDigest(digest) && ProperServing(quota, digest, Started(disk), run)
    ensures var c := Run(quota, digest, Started(disk), run).cache;
            c.used == Sum(c.sizes) <==> NoneOvertaken(History(quota, digest, Started(disk), run), run)
  {
    RePutsAreOvertakings(disk, quota, digest, run);
    CacheIsItsCalls(disk, quota, digest, run);
    ExactIffNoLiveRePut(disk, quota, digest, Calls(quota, digest, Started(disk), run));
  }

  /** Request `t` asks for `q` at step `j`. */
  predicate AskedAt(h: seq<Gateway>, run: seq<Action>, j: int, t: nat, q: Query)
    requires |h| == |run| + 1
  {
    0 <= j < |run| && run[j] == Ask(t, q) && t !in h[j].flights
  }

  predicate IsLive(g: Gateway, sha: string) { SizeAt(g.cache.sizes, sha) > 0 }

  lemma {:induction false} AskedBefore(
      quota: int, digest: string -> string, h: seq<Gateway>, run: seq<Action>, k: nat, t: nat)
    returns (j: nat)
    requires IsTrace(quota, digest, h, run) && h[0].flights == map[] && k <= |run| && t in h[k].flights
    ensures j < k && AskedAt(h, run, j, t, h[k].flights[t].q)
    ensures h[k].flights[t].Fetched? || h[k].flights[t].Missing? ==> !IsLive(h[j], h[k].flights[t].q.sha)
    decreases k
  {
    assert k > 0 && Step(quota, digest, h[k - 1], run[k - 1]) == h[k];
    if t in h[k - 1].flights {
      j := AskedBefore(quota, digest, h, run, k - 1, t);
    } else {
      j := k - 1;
    }
  }

  lemma {:induction false} AnsweredStays(
      quota: int, digest: string -> string, h: seq<Gateway>, run: seq<Action>, m: nat, k: nat, t: nat)
    requires IsTrace(quota, digest, h, run) && m <= k <= |run|
    requires t in h[m].flights && h[m].flights[t].Answered?
    ensures t in h[k].flights && h[k].flights[t] == h[m].flights[t]
    decreases k
  {
    if m < k {
      AnsweredStays(quota, digest, h, run, m, k - 1, t);
      assert Step(quota, digest, h[k - 1], run[k - 1]) == h[k];
    }
  }

  lemma {:induction false} EvictLoopKeepsSizes(c: Cache, quota: int, order: seq<string>, stuck: set<string>)
    ensures forall n :: n in EvictLoop(c, quota, order, stuck).sizes ==>
              n in c.sizes && EvictLoop(c, quota, order, stuck).sizes[n] == c.sizes[n]
    decreases |order|
  {
    if order != [] && c.used > quota {
      EvictLoopKeepsSizes(if Removable(c, order[0], stuck) then Evict(c, order[0]) else c, quota, order[1..], stuck);
    }
  }

  /** A blob becomes live only by being stored. */
  lemma OnlyStoringMakesLive(quota: int, digest: string -> string, g: Gateway, a: Action, sha: string)
    requires !IsLive(g, sha) && IsLive(Step(quota, digest, g, a), sha)
    ensures Stores(g, a) && a.stored && g.flights[a.t].q.sha == sha
  {
    if Stores(g, a) {
      var f := g.flights[a.t];
      EvictLoopKeepsSizes(Inserted(g.cache, f.q.sha, f.body, a.now), quota, a.order, a.stuck);
    }
  }

  lemma {:induction false} BecameLive(h: seq<Gateway>, j: nat, k: nat, sha: string) returns (m: nat)
    requires j <= k < |h| && !IsLive(h[j], sha) && IsLive(h[k], sha)
    ensures j <= m < k && !IsLive(h[m], sha) && IsLive(h[m + 1], sha)
    decreases k
  {
    if IsLive(h[k - 1], sha) { m := BecameLive(h, j, k - 1, sha); } else { m := k - 1; }
  }

  /** Another request stores the blob while `t` is between asking for it and storing it. */
  ghost predicate StoredMeanwhile(h: seq<Gateway>, run: seq<Action>, j: int, m: int, k: int, t: nat, sha: string)
    requires |h| == |run| + 1
  {
    && 0 <= j < m < k < |run|
    && run[j].Ask? && run[j].t == t && run[j].q.sha == sha
    && Stores(h[k], run[k]) && run[k].t == t
    && Stores(h[m], run[m]) && run[m].stored && run[m].t != t && h[m].flights[run[m].t].q.sha == sha
  }

  /** What overtakes a request is another request's store of the same blob, after it asked. */
  lemma OvertakenByAnother(quota: int, digest: string -> string, h: seq<Gateway>, run: seq<Action>, k: nat)
    returns (j: nat, m: nat)
    requires IsTrace(quota, digest, h, run) && h[0].flights == map[] && OvertakenAt(h, run, k)
    ensures StoredMeanwhile(h, run, j, m, k, run[k].t, h[k].flights[run[k].t].q.sha)
  {
    var t := run[k].t;
    var sha := h[k].flights[t].q.sha;
    j := AskedBefore(quota, digest, h, run, k, t);
    m := BecameLive(h, j, k, sha);
    assert Step(quota, digest, h[m], run[m]) == h[m + 1];
    OnlyStoringMakesLive(quota, digest, h[m], run[m], sha);
    AnsweredStays(quota, digest, h, run, m + 1, k, run[m].t);
  }

  /** So the counter is exact in every run where no two requests fetch one blob at a time. */
  lemma SingleFlightIsExact(disk: map<string, File>, quota: int, digest: string -> string, run: seq<Action>)
    requires IsDigest(digest) && ProperServing(quota, digest, Started(disk), run)
    requires var h := History(quota, digest, Started(disk), run);
             forall j, m, k, t, sha :: !StoredMeanwhile(h, run, j, m, k, t, sha)
    ensures var c := Run(quota, digest, Started(disk), run).cache; c.used == Sum(c.sizes)
  {
    var h := History(quota, digest, Started(disk), run);
    HistoryIsTrace(quota, digest, Started(disk), run);
    ExactIffNoneOvertaken(disk, quota, digest, run);
    if k :| OvertakenAt(h, run, k) {
      var j, m := OvertakenByAnother(quota, digest, h, run, k);
    }
  }

  // ---- When a request is turned away ----

  /** The step takes the blob out of the cache to make room. */
  predicate Evicts(g: Gateway, a: Action, after: Gateway, sha: string) {
    Stores(g, a) && sha in g.cache.disk && sha !in after.cache.disk
  }

  predicate EvictedAt(h: seq<Gateway>, run: seq<Action>, sha: string, m: int)
    requires |h| == |run| + 1
  {
    0 <= m < |run| && Evicts(h[m], run[m], h[m + 1], sha)
  }

  /** A store after `j` evicts the blob, and it is not back by `k`. */
  ghost predicate EvictedBetween(h: seq<Gateway>, run: seq<Action>, sha: string, j: int, k: int)
    requires |h| == |run| + 1 && k <= |run|
  {
    exists m :: j < m < k && EvictedAt(h, run, sha, m) && forall l :: 0 <= m < l <= k ==> sha !in h[l].cache.disk
  }

  lemma {:induction false} Vanished(
      quota: int, digest: string -> string, h: seq<Gateway>, run: seq<Action>, sha: string, j: nat, k: nat)
    requires IsTrace(quota, digest, h, run) && j < k <= |run| && !run[j].StoreBlob?
    requires sha in h[j].cache.disk && sha !in h[k].cache.disk
    ensures EvictedBetween(h, run, sha, j, k)
    decreases k
  {
    assert Step(quota, digest, h[k - 1], run[k - 1]) == h[k];
    if sha in h[k - 1].cache.disk {
      assert EvictedAt(h, run, sha, k - 1);
    } else {
      Vanished(quota, digest, h, run, sha, j, k - 1);
      var m :| j < m < k - 1 && EvictedAt(h, run, sha, m) && forall l :: 0 <= m < l <= k - 1 ==> sha !in h[l].cache.disk;
    }
  }

  predicate OpenedAt(h: seq<Gateway>, run: seq<Action>, k: int, t: nat)
    requires |h| == |run| + 1
  {
    0 <= k < |run| && run[k].t == t && Opens(h[k], run[k])
  }

  predicate FetchedAt(h: seq<Gateway>, run: seq<Action>, k: int, t: nat)
    requires |h| == |run| + 1
  {
    0 <= k < |run| && run[k].t == t && Fetches(h[k], run[k])
  }

  /** A request that was told the blob is cached waits, or has opened it. */
  lemma {:induction false} CachedFlight(
      quota: int, digest: string -> string, h: seq<Gateway>, run: seq<Action>, j: nat, t: nat, q: Query, n: nat)
    requires IsTrace(quota, digest, h, run) && AskedAt(h, run, j, t, q) && j < n <= |run| && IsLive(h[j], q.sha)
    ensures t in h[n].flights
    ensures h[n].flights[t] == Cached(q)
         || exists k :: j < k < n && OpenedAt(h, run, k, t) && h[n].flights[t] == Answered(q, Opening(h[k].cache, q))
    decreases n
  {
    assert Step(quota, digest, h[n - 1], run[n - 1]) == h[n];
    if n > j + 1 {
      CachedFlight(quota, digest, h, run, j, t, q, n - 1);
      if h[n - 1].flights[t] == Cached(q) {
        assert h[n].flights[t] == Cached(q) || OpenedAt(h, run, n - 1, t);
      }
    }
  }

  /** A fetched flight, as it is or answered. */
  predicate ComesOf(f: Flight, fetched: Flight) {
    f == fetched
    || (fetched.Fetched? && f == Answered(fetched.q, Respond(fetched.q.sha, fetched.body, fetched.q.ifNoneMatch)))
  }

  /** A request that was told it is not waits, has fetched, or has been answered by what it fetched. */
  lemma {:induction false} MissingFlight(
      quota: int, digest: string -> string, h: seq<Gateway>, run: seq<Action>, j: nat, t: nat, q: Query, n: nat)
    requires IsTrace(quota, digest, h, run) && AskedAt(h, run, j, t, q) && j < n <= |run| && !IsLive(h[j], q.sha)
    ensures t in h[n].flights
    ensures h[n].flights[t] == Missing(q)
         || exists k :: j < k < n && FetchedAt(h, run, k, t) && ComesOf(h[n].flights[t], Fetching(digest, q, run[k].servers))
    decreases n
  {
    assert Step(quota, digest, h[n - 1], run[n - 1]) == h[n];
    if n > j + 1 {
      MissingFlight(quota, digest, h, run, j, t, q, n - 1);
      if h[n - 1].flights[t] == Missing(q) {
        assert h[n].flights[t] == Missing(q) || FetchedAt(h, run, n - 1, t);
      }
    }
  }

  lemma OpenedAnswers(
      quota: int, digest: string -> string, h: seq<Gateway>, run: seq<Action>, j: nat, t: nat, q: Query, k: nat)
    requires IsTrace(quota, digest, h, run) && AskedAt(h, run, j, t, q) && IsLive(h[j], q.sha)
    requires j < k && OpenedAt(h, run, k, t)
    ensures t in h[|run|].flights && h[|run|].flights[t] == Answered(q, Opening(h[k].cache, q))
  {
    CachedFlight(quota, digest, h, run, j, t, q, k);
    assert Step(quota, digest, h[k], run[k]) == h[k + 1];
    AnsweredStays(quota, digest, h, run, k + 1, |run|, t);
  }

  lemma FetchedAnswers(
      quota: int, digest: string -> string, h: seq<Gateway>, run: seq<Action>, j: nat, t: nat, q: Query, k: nat)
    requires IsTrace(quota, digest, h, run) && AskedAt(h, run, j, t, q) && !IsLive(h[j], q.sha)
    requires j < k && FetchedAt(h, run, k, t) && Fetching(digest, q, run[k].servers) == Answered(q, NotFound)
    ensures t in h[|run|].flights && h[|run|].flights[t] == Answered(q, NotFound)
  {
    MissingFlight(quota, digest, h, run, j, t, q, k);
    assert Step(quota, digest, h[k], run[k]) == h[k + 1];
    AnsweredStays(quota, digest, h, run, k + 1, |run|, t);
  }

  /** Whether the answer of a request that asked at `j` is 404. */
  ghost predicate TurnedAway(digest: string -> string, h: seq<Gateway>, run: seq<Action>, j: int, t: nat, q: Query)
    requires |h| == |run| + 1 && 0 <= j < |run|
  {
    if IsLive(h[j], q.sha)
    then exists k :: j < k && OpenedAt(h, run, k, t) && EvictedBetween(h, run, q.sha, j, k)
    else exists k :: j < k && FetchedAt(h, run, k, t) && FetchFirst(run[k].servers, digest, q.sha) in {None, Some("")}
  }

  lemma TurnedAwayCached(
      quota: int, digest: string -> string, h: seq<Gateway>, run: seq<Action>, j: nat, t: nat, q: Query)
    requires IsTrace(quota, digest, h, run) && AskedAt(h, run, j, t, q)
    requires IsLive(h[j], q.sha) && q.sha in h[j].cache.disk
    requires t in h[|run|].flights && h[|run|].flights[t].Answered?
    ensures h[|run|].flights[t].response.NotFound? <==> TurnedAway(digest, h, run, j, t, q)
  {
    CachedFlight(quota, digest, h, run, j, t, q, |run|);
    var k :| j < k < |run| && OpenedAt(h, run, k, t) && h[|run|].flights[t] == Answered(q, Opening(h[k].cache, q));
    if q.sha !in h[k].cache.disk { Vanished(quota, digest, h, run, q.sha, j, k); }
    if k' :| j < k' && OpenedAt(h, run, k', t) && EvictedBetween(h, run, q.sha, j, k') {
      OpenedAnswers(quota, digest, h, run, j, t, q, k');
    }
  }

  lemma TurnedAwayMissing(
      quota: int, digest: string -> string, h: seq<Gateway>, run: seq<Action>, j: nat, t: nat, q: Query)
    requires IsTrace(quota, digest, h, run) && AskedAt(h, run, j, t, q) && !IsLive(h[j], q.sha)
    requires t in h[|run|].flights && h[|run|].flights[t].Answered?
    ensures h[|run|].flights[t].response.NotFound? <==> TurnedAway(digest, h, run, j, t, q)
  {
    MissingFlight(quota, digest, h, run, j, t, q, |run|);
    if k :| j < k && FetchedAt(h, run, k, t) && FetchFirst(run[k].servers, digest, q.sha) in {None, Some("")} {
      FetchedAnswers(quota, digest, h, run, j, t, q, k);
    }
  }

  /**
   When a request is turned away. One that was told the blob is cached ends in 404
   exactly when the blob was evicted between its asking and its opening; one that was
   told it is not, exactly when it fetched nothing.
   */
  lemma TurnedAwayExactly(
      disk: map<string, File>, quota: int, digest: string -> string, run: seq<Action>, j: nat, t: nat, q: Query)
    requires IsDigest(digest) && ProperServing(quota, digest, Started(disk), run)
    requires AskedAt(History(quota, digest, Started(disk), run), run, j, t, q)
    requires t in Run(quota, digest, Started(disk), run).flights
    requires Run(quota, digest, Started(disk), run).flights[t].Answered?
    ensures Run(quota, digest, Started(disk), run).flights[t].response.NotFound?
       <==> TurnedAway(digest, History(quota, digest, Started(disk), run), run, j, t, q)
  {
    var h := History(quota, digest, Started(disk), run);
    HistoryIsTrace(quota, digest, Started(disk), run);
    if IsLive(h[j], q.sha) {
      HistoryPrefix(quota, digest, Started(disk), run, j);
      CacheIsItsCalls(disk, quota, digest, run[..j]);
      RunDrift(disk, quota, digest, Calls(quota, digest, Started(disk), run[..j]));
      assert q.sha in Blobs(h[j].cache.disk);
      TurnedAwayCached(quota, digest, h, run, j, t, q);
    } else {
      TurnedAwayMissing(quota, digest, h, run, j, t, q);
    }
  }

  /** Whatever is answered with a body is what any verifying server gives, unless the digest clashes on the two. */
  lemma CacheIsInvisible(
      disk: map<string, File>, quota: int, digest: string -> string, run: seq<Action>, t: nat, servers: seq<Server>)
    requires IsDigest(digest) && NamesMatch(Scanned(disk), digest) && ProperServing(quota, digest, Started(disk), run)
    requires t in Run(quota, digest, Started(disk), run).flights
    requires var f := Run(quota, digest, Started(disk), run).flights[t];
             f.Answered? && f.response.Body? && FetchFirst(servers, digest, f.q.sha).Some?
             && (FetchFirst(servers, digest, f.q.sha).value != f.response.body ==>
                   digest(FetchFirst(servers, digest, f.q.sha).value) != digest(f.response.body))
    ensures var f := Run(quota, digest, Started(disk), run).flights[t];
            f.response.body == FetchFirst(servers, digest, f.q.sha).value
  {
    EveryBodyVerifies(disk, quota, digest, run);
    var f := Run(quota, digest, Started(disk), run).flights[t];
    FetchFirstIsFirst(servers, digest, f.q.sha);
  }

  // ---- A request alone ----

  lemma {:induction false} TraceIsRun(quota: int, digest: string -> string, states: seq<Gateway>, run: seq<Action>)
    requires IsTrace(quota, digest, states, run)
    ensures Run(quota, digest, states[0], run) == states[|run|]
    ensures (forall i :: 0 <= i < |run| ==> ProperStep(states[i], run[i])) ==> ProperServing(quota, digest, states[0], run)
  {
    if run != [] { TraceIsRun(quota, digest, states[..|run|], run[..|run| - 1]); }
  }

  /** The steps of one request; those that do not apply change nothing. */
  function RequestSchedule(t: nat, req: Request): seq<Action> {
    [Ask(t, Query(req.sha, req.ifNoneMatch)), OpenFile(t, req.now), FetchBlob(t, req.servers),
     StoreBlob(t, req.now, req.stored, req.order, req.stuck)]
  }

  /** A request whose steps run in a row is served as by the handler run alone, whatever else is in flight. */
  lemma SoloRequest(quota: int, digest: string -> string, g: Gateway, t: nat, req: Request)
    requires t !in g.flights
    ensures var s := ServeBlob(g.cache, quota, digest, req);
            Run(quota, digest, g, RequestSchedule(t, req))
            == Gateway(s.cache, g.flights[t := Answered(Query(req.sha, req.ifNoneMatch), s.response)])
  {
    var run := RequestSchedule(t, req);
    RunOfFour(quota, digest, g, run[0], run[1], run[2], run[3]);
    if SizeAt(g.cache.sizes, req.sha) > 0 {
      SoloCached(quota, digest, g, t, req);
    } else {
      SoloMissing(quota, digest, g, t, req);
    }
  }

  function StepFour(quota: int, digest: string -> string, g: Gateway, a: Action, b: Action, c: Action, d: Action): Gateway {
    Step(quota, digest, Step(quota, digest, Step(quota, digest, Step(quota, digest, g, a), b), c), d)
  }

  lemma RunOfFour(quota: int, digest: string -> string, g: Gateway, a: Action, b: Action, c: Action, d: Action)
    ensures Run(quota, digest, g, [a, b, c, d]) == StepFour(quota, digest, g, a, b, c, d)
  {
    var g1 := Step(quota, digest, g, a);
    var g2 := Step(quota, digest, g1, b);
    var g3 := Step(quota, digest, g2, c);
    TraceIsRun(quota, digest, [g, g1, g2, g3, Step(quota, digest, g3, d)], [a, b, c, d]);
  }

  lemma SoloCached(quota: int, digest: string -> string, g: Gateway, t: nat, req: Request)
    requires t !in g.flights && SizeAt(g.cache.sizes, req.sha) > 0
    ensures var run, s := RequestSchedule(t, req), ServeBlob(g.cache, quota, digest, req);
            StepFour(quota, digest, g, run[0], run[1], run[2], run[3])
            == Gateway(s.cache, g.flights[t := Answered(Query(req.sha, req.ifNoneMatch), s.response)])
  {}

  lemma SoloMissing(quota: int, digest: string -> string, g: Gateway, t: nat, req: Request)
    requires t !in g.flights && SizeAt(g.cache.sizes, req.sha) <= 0
    ensures var run, s := RequestSchedule(t, req), ServeBlob(g.cache, quota, digest, req);
            StepFour(quota, digest, g, run[0], run[1], run[2], run[3])
            == Gateway(s.cache, g.flights[t := Answered(Query(req.sha, req.ifNoneMatch), s.response)])
  {}

  // ---- Two requests at a time ----

  lemma Extend(quota: int, digest: string -> string, g: Gateway, run: seq<Action>, a: Action, after: Gateway)
    requires ProperServing(quota, digest, g, run)
    requires ProperStep(Run(quota, digest, g, run), a) && Step(quota, digest, Run(quota, digest, g, run), a) == after
    ensures ProperServing(quota, digest, g, run + [a]) && Run(quota, digest, g, run + [a]) == after
  {
    assert (run + [a])[..|run|] == run;
  }

  lemma FetchOne(digest: string -> string, q: Query, body: string)
    requires digest(body) == q.sha && body != ""
    ensures FetchFirst([Server(Some(body))], digest, q.sha) == Some(body)
    ensures Fetching(digest, q, [Server(Some(body))]) == Fetched(q, body)
  {}

  function AskAndFetch(t: nat, q: Query, body: string): seq<Action> { [Ask(t, q), FetchBlob(t, [Server(Some(body))])] }

  /** A request for a blob that is not cached gets as far as its store. */
  lemma AsksAndFetches(
      quota: int, digest: string -> string, g: Gateway, run: seq<Action>, t: nat, q: Query, body: string)
    requires ProperServing(quota, digest, g, run)
    requires var s := Run(quota, digest, g, run); t !in s.flights && SizeAt(s.cache.sizes, q.sha) <= 0
    requires IsBlobName(q.sha) && digest(body) == q.sha && body != ""
    ensures ProperServing(quota, digest, g, run + AskAndFetch(t, q, body))
    ensures var s := Run(quota, digest, g, run);
            Run(quota, digest, g, run + AskAndFetch(t, q, body)) == Goto(s, t, Fetched(q, body))
  {
    var s, ask := Run(quota, digest, g, run), Ask(t, q);
    StepAsks(quota, digest, s, t, q);
    Extend(quota, digest, g, run, ask, Goto(s, t, Missing(q)));
    StepFetches(quota, digest, s, t, q, body);
    Extend(quota, digest, g, run + [ask], FetchBlob(t, [Server(Some(body))]), Goto(s, t, Fetched(q, body)));
    assert run + [ask] + [FetchBlob(t, [Server(Some(body))])] == run + AskAndFetch(t, q, body);
  }

  lemma StepAsks(quota: int, digest: string -> string, s: Gateway, t: nat, q: Query)
    requires t !in s.flights && SizeAt(s.cache.sizes, q.sha) <= 0
    ensures Step(quota, digest, s, Ask(t, q)) == Goto(s, t, Missing(q))
  {}

  lemma StepFetches(quota: int, digest: string -> string, s: Gateway, t: nat, q: Query, body: string)
    requires digest(body) == q.sha && body != ""
    ensures Step(quota, digest, Goto(s, t, Missing(q)), FetchBlob(t, [Server(Some(body))])) == Goto(s, t, Fetched(q, body))
  {
    FetchOne(digest, q, body);
    assert s.flights[t := Missing(q)][t := Fetched(q, body)] == s.flights[t := Fetched(q, body)];
  }

  /** Two clients ask for one uncached blob at once; both store it, and its byte is counted twice. */
  lemma TwoRequestsOvercount(digest: string -> string, quota: int, sha: string)
    requires IsBlobName(sha) && digest("x") == sha && quota >= 2
    ensures var g, run := Started(map[]), BothFetch(sha);
            && ProperServing(quota, digest, g, run)
            && Run(quota, digest, g, run).cache == Cache(2, map[sha := 1], map[sha := 6], map[sha := File("x", 6)])
            && Drift(Run(quota, digest, g, run).cache) == 1
  {
    var g, q := Started(map[]), Query(sha, None);
    var sizes: map<string, int> := map[sha := 1];
    SumWithout(sizes, sha);
    var first := AskAndFetch(1, q, "x");
    var both := first + AskAndFetch(2, q, "x");
    assert g.cache == Cache(0, map[], map[], map[]);
    AsksAndFetches(quota, digest, g, [], 1, q, "x");
    assert [] + first == first;
    AsksAndFetches(quota, digest, g, first, 2, q, "x");
    StoresTwice(quota, digest, g, both, q);
  }

  function BothFetch(sha: string): seq<Action> {
    var q := Query(sha, None);
    AskAndFetch(1, q, "x") + AskAndFetch(2, q, "x")
    + [StoreBlob(1, 5, true, [sha], {})] + [StoreBlob(2, 6, true, [sha], {})]
  }

  lemma StoresTwice(quota: int, digest: string -> string, g: Gateway, run: seq<Action>, q: Query)
    requires ProperServing(quota, digest, g, run) && q.ifNoneMatch == None && digest("x") == q.sha && quota >= 2
    requires var s := Run(quota, digest, g, run);
             && s.cache == Cache(0, map[], map[], map[])
             && 1 in s.flights && s.flights[1] == Fetched(q, "x") && 2 in s.flights && s.flights[2] == Fetched(q, "x")
    ensures var stores := run + [StoreBlob(1, 5, true, [q.sha], {})] + [StoreBlob(2, 6, true, [q.sha], {})];
            && ProperServing(quota, digest, g, stores)
            && Run(quota, digest, g, stores).cache == Cache(2, map[q.sha := 1], map[q.sha := 6], map[q.sha := File("x", 6)])
  {
    var s := Run(quota, digest, g, run);
    var first, second := StoreBlob(1, 5, true, [q.sha], {}), StoreBlob(2, 6, true, [q.sha], {});
    var one := Cache(1, map[q.sha := 1], map[q.sha := 5], map[q.sha := File("x", 5)]);
    var two := Cache(2, map[q.sha := 1], map[q.sha := 6], map[q.sha := File("x", 6)]);
    PutOnce(quota, digest, q.sha);
    StepStores(quota, digest, s, first, q, "x", one);
    Extend(quota, digest, g, run, first, Step(quota, digest, s, first));
    var s' := Step(quota, digest, s, first);
    PutTwice(quota, digest, q.sha);
    StepStores(quota, digest, s', second, q, "x", two);
    Extend(quota, digest, g, run + [first], second, Step(quota, digest, s', second));
  }

  /** A store answers its request and leaves what the Put leaves. */
  lemma StepStores(quota: int, digest: string -> string, s: Gateway, a: Action, q: Query, body: string, after: Cache)
    requires a.StoreBlob? && a.t in s.flights && s.flights[a.t] == Fetched(q, body)
    requires AfterPut(s.cache, quota, digest, q.sha, body, a.now, a.stored, a.order, a.stuck) == after
    ensures Step(quota, digest, s, a)
         == Gateway(after, s.flights[a.t := Answered(q, Respond(q.sha, body, q.ifNoneMatch))])
  {}

  lemma IsOrderOfOne(sha: string, at: int)
    ensures IsLruOrder([sha], map[sha := at])
  {
    assert [sha][1..] == [];
  }

  lemma PutOnce(quota: int, digest: string -> string, sha: string)
    requires digest("x") == sha && quota >= 2
    ensures var c := Cache(0, map[], map[], map[]);
            && IsLruOrder([sha], Inserted(c, sha, "x", 5).lastUse)
            && AfterPut(c, quota, digest, sha, "x", 5, true, [sha], {})
               == Cache(1, map[sha := 1], map[sha := 5], map[sha := File("x", 5)])
  {
    IsOrderOfOne(sha, 5);
  }

  lemma PutTwice(quota: int, digest: string -> string, sha: string)
    requires digest("x") == sha && quota >= 2
    ensures var c := Cache(1, map[sha := 1], map[sha := 5], map[sha := File("x", 5)]);
            && IsLruOrder([sha], Inserted(c, sha, "x", 6).lastUse)
            && AfterPut(c, quota, digest, sha, "x", 6, true, [sha], {})
               == Cache(2, map[sha := 1], map[sha := 6], map[sha := File("x", 6)])
  {
    IsOrderOfOne(sha, 6);
  }

  /**
   A blob is cached and a server holds it, and still its request ends in 404: another
   request's store evicts it after the cache has said that it is there.
   */
  lemma EvictionTurnsAway(digest: string -> string, a: string, b: string)
    requires IsBlobName(a) && IsBlobName(b) && a != b && digest("x") == a && digest("y") == b
    ensures var g, run := Started(map[a := File("x", 0)]), OneEvictsTheOthers(a, b);
            && ProperServing(1, digest, g, run)
            && 1 in Run(1, digest, g, run).flights
            && Run(1, digest, g, run).flights[1] == Answered(Query(a, None), NotFound)
    ensures FetchFirst([Server(Some("x"))], digest, a) == Some("x")
  {
    var g, qa, qb := Started(map[a := File("x", 0)]), Query(a, None), Query(b, None);
    var asked := [Ask(1, qa)];
    FetchOne(digest, qa, "x");
    OneBlobScanned(a);
    assert [] + asked == asked;
    Extend(1, digest, g, [], Ask(1, qa), Goto(g, 1, Cached(qa)));
    AsksAndFetches(1, digest, g, asked, 2, qb, "y");
    EvictsAndMisses(digest, g, asked + AskAndFetch(2, qb, "y"), qa, qb);
  }

  lemma OneBlobScanned(a: string)
    requires IsBlobName(a)
    ensures Scanned(map[a := File("x", 0)]) == Cache(1, map[a := 1], map[a := 0], map[a := File("x", 0)])
  {
    var sizes: map<string, int> := map[a := 1];
    assert Scanned(map[a := File("x", 0)]).sizes == sizes;
    SumWithout(sizes, a);
  }

  function OneEvictsTheOthers(a: string, b: string): seq<Action> {
    [Ask(1, Query(a, None))] + AskAndFetch(2, Query(b, None), "y")
    + [StoreBlob(2, 1, true, [a, b], {})] + [OpenFile(1, 2)]
  }

  lemma EvictsAndMisses(digest: string -> string, g: Gateway, run: seq<Action>, qa: Query, qb: Query)
    requires ProperServing(1, digest, g, run) && qa.sha != qb.sha && digest("y") == qb.sha
    requires var a, s := qa.sha, Run(1, digest, g, run);
             && s.cache == Cache(1, map[a := 1], map[a := 0], map[a := File("x", 0)])
             && 1 in s.flights && s.flights[1] == Cached(qa) && 2 in s.flights && s.flights[2] == Fetched(qb, "y")
    ensures var last := run + [StoreBlob(2, 1, true, [qa.sha, qb.sha], {})] + [OpenFile(1, 2)];
            && ProperServing(1, digest, g, last)
            && 1 in Run(1, digest, g, last).flights && Run(1, digest, g, last).flights[1] == Answered(qa, NotFound)
  {
    var s := Run(1, digest, g, run);
    var store, open := StoreBlob(2, 1, true, [qa.sha, qb.sha], {}), OpenFile(1, 2);
    var left := Cache(1, map[qb.sha := 1], map[qb.sha := 1], map[qb.sha := File("y", 1)]);
    PutEvicts(digest, qa.sha, qb.sha);
    StepStores(1, digest, s, store, qb, "y", left);
    var s' := Step(1, digest, s, store);
    Extend(1, digest, g, run, store, s');
    StepMisses(1, digest, s', open, qa);
    Extend(1, digest, g, run + [store], open, Step(1, digest, s', open));
  }

  /** A request whose file is gone is turned away. */
  lemma StepMisses(quota: int, digest: string -> string, s: Gateway, a: Action, q: Query)
    requires a.OpenFile? && a.t in s.flights && s.flights[a.t] == Cached(q) && q.sha !in s.cache.disk
    ensures Step(quota, digest, s, a) == Goto(s, a.t, Answered(q, NotFound))
  {}

  lemma PutEvicts(digest: string -> string, a: string, b: string)
    requires a != b && digest("y") == b
    ensures var c := Cache(1, map[a := 1], map[a := 0], map[a := File("x", 0)]);
            && IsLruOrder([a, b], Inserted(c, b, "y", 1).lastUse)
            && AfterPut(c, 1, digest, b, "y", 1, true, [a, b], {})
               == Cache(1, map[b := 1], map[b := 1], map[b := File("y", 1)])
  {
    var c := Inserted(Cache(1, map[a := 1], map[a := 0], map[a := File("x", 0)]), b, "y", 1);
    var order := [a, b];
    assert order[1..] == [b] && [b][1..] == [];
    assert Distinct(order) && forall n :: n in order <==> n == a || n == b;
    var left := Evict(c, a);
    assert left == Cache(1, map[b := 1], map[b := 1], map[b := File("y", 1)]);
    assert EvictLoop(c, 1, order, {}) == EvictLoop(left, 1, [b], {}) == left;
  }

  // ---- Two caches over one directory ----

  /** The blob is on record and gone, and no request is about to store it. */
  ghost predicate IsStuck(g: Gateway, sha: string) {
    && IsStranded(g.cache, sha)
    && forall t :: t in g.flights && g.flights[t].q.sha == sha ==> g.flights[t].Cached? || g.flights[t].Answered?
  }

  lemma StepStuck(quota: int, digest: string -> string, g: Gateway, a: Action, sha: string)
    requires IsStuck(g, sha)
    ensures IsStuck(Step(quota, digest, g, a), sha)
  {
    CacheStep(quota, digest, g, a);
    if CallOf(g, a).Some? { StrandedStays(g.cache, quota, digest, CallOf(g, a).value, sha); }
    if Fetches(g, a) { FetchingKeepsQuery(digest, g.flights[a.t].q, a.servers); }
  }

  lemma FetchingKeepsQuery(digest: string -> string, q: Query, servers: seq<Server>)
    ensures Fetching(digest, q, servers).q == q
  {}

  /** From then on every request for the blob ends in 404, whatever the servers hold, in every run. */
  lemma {:induction false} StuckIsTurnedAway(
      quota: int, digest: string -> string, g: Gateway, run: seq<Action>, sha: string)
    requires IsStuck(g, sha)
    ensures var g' := Run(quota, digest, g, run);
            && IsStuck(g', sha)
            && forall t :: t in g'.flights && t !in g.flights && g'.flights[t].q.sha == sha ==>
                 g'.flights[t].Cached? || g'.flights[t] == Answered(g'.flights[t].q, NotFound)
  {
    if run != [] {
      var before, a := run[..|run| - 1], run[|run| - 1];
      StuckIsTurnedAway(quota, digest, g, before, sha);
      var s := Run(quota, digest, g, before);
      StepStuck(quota, digest, s, a, sha);
      if Fetches(s, a) { FetchingKeepsQuery(digest, s.flights[a.t].q, a.servers); }
    }
  }

  /** Two caches over one directory get there: what one evicts stays on the other's record. */
  lemma SecondCacheStrands(digest: string -> string, a: string, b: string)
    requires IsBlobName(a) && a != b && digest("y") == b
    ensures var scanned := Scanned(map[a := File("x", 0)]);
            var other := AfterPut(scanned, 1, digest, b, "y", 1, true, [a, b], {});
            && IsLruOrder([a, b], Inserted(scanned, b, "y", 1).lastUse)
            && IsStuck(Gateway(scanned.(disk := other.disk), map[]), a)
  {
    OneBlobScanned(a);
    PutEvicts(digest, a, b);
  }
}
