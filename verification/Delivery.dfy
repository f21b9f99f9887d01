/** From a published manifest to the bytes sent: what a site's request finds, and what serving it sends. */
module Delivery {
  import opened Outcome
  import opened Nostr
  import opened Arrivals
  import opened Routing
  import opened Addressing
  import M = Manifest
  import V = Validation
  import A = Aggregate
  import R = Resolve
  import C = ManifestCache
  import P = RequestPath
  import B = BlobCache
  import S = Serving

  // ---- What sites ask for ----

  ghost predicate ListsHash(env: R.Env, ev: Event, sha: string) {
    exists e :: e in M.VerdictOf(ev, env.opts, env.lib).paths && e.hash == sha
  }

  /** Some valid manifest lists the hash. */
  ghost predicate IsListed(env: R.Env, sha: string) { exists ev :: R.Validates(env, ev) && ListsHash(env, ev, sha) }

  lemma EntryIsBlobName(paths: seq<A.Path>, e: A.Path)
    requires A.AllEntries(paths) && e in paths
    ensures B.IsBlobName(e.hash)
  {
    var i :| 0 <= i < |paths| && paths[i] == e;
    assert A.IsEntry(paths[i]);
  }

  lemma ListedIsBlobName(env: R.Env, sha: string)
    requires IsListed(env, sha)
    ensures B.IsBlobName(sha)
  {
    var ev :| R.Validates(env, ev) && ListsHash(env, ev, sha);
    ListsBlobNames(env, ev, sha);
  }

  lemma ListsBlobNames(env: R.Env, ev: Event, sha: string)
    requires ListsHash(env, ev, sha)
    ensures B.IsBlobName(sha)
  {
    V.VerdictPathsAreEntries(ev, env.opts, env.lib);
    var e :| e in M.VerdictOf(ev, env.opts, env.lib).paths && e.hash == sha;
    EntryIsBlobName(M.VerdictOf(ev, env.opts, env.lib).paths, e);
  }

  /** Whatever a lookup finds is listed. */
  lemma FoundIsListed(env: R.Env, ev: Event, found: Found, x: string)
    requires R.Validates(env, ev) && PicksExactly(found, x, M.VerdictOf(ev, env.opts, env.lib).paths)
    requires found.Blob? || found.NotFoundPage?
    ensures IsListed(env, found.sha)
    ensures A.Path(if found.Blob? then x else "/404.html", found.sha) in M.VerdictOf(ev, env.opts, env.lib).paths
  {
    var e := A.Path(if found.Blob? then x else "/404.html", found.sha);
    assert found == if found.Blob? then Blob(found.sha) else NotFoundPage(found.sha);
    assert e.hash == found.sha && ListsHash(env, ev, found.sha);
  }

  // ---- Runs of site requests ----

  ghost predicate AsksListed(env: R.Env, run: seq<S.Action>) {
    forall i :: 0 <= i < |run| && run[i].Ask? ==> IsListed(env, run[i].q.sha)
  }

  /** Every store of the run evicts in some least-recently-used order. */
  ghost predicate StoresInOrder(quota: int, digest: string -> string, g: S.Gateway, run: seq<S.Action>) {
    run == [] ||
    (StoresInOrder(quota, digest, g, run[..|run| - 1])
     && (run[|run| - 1].Ask? || S.ProperStep(S.Run(quota, digest, g, run[..|run| - 1]), run[|run| - 1])))
  }

  /** Requests that sites make are for hashes of 64 characters, as serving them asks. */
  lemma {:induction false} ListedIsProper(env: R.Env, quota: int, digest: string -> string, g: S.Gateway, run: seq<S.Action>)
    requires AsksListed(env, run) && StoresInOrder(quota, digest, g, run)
    ensures S.ProperServing(quota, digest, g, run)
  {
    if run != [] {
      var before, a := run[..|run| - 1], run[|run| - 1];
      ListedIsProper(env, quota, digest, g, before);
      if a.Ask? { ListedIsBlobName(env, a.q.sha); }
    }
  }

  /** A cache that starts true to its names, in a run where sites ask for what manifests list. */
  ghost predicate ServesSites(env: R.Env, disk: map<string, B.File>, quota: int, run: seq<S.Action>) {
    && M.IsDigest(env.lib.sha256Hex) && B.NamesMatch(B.Scanned(disk), env.lib.sha256Hex)
    && AsksListed(env, run) && StoresInOrder(quota, env.lib.sha256Hex, S.Started(disk), run)
  }

  /** Request `t` asked for the blob found, and is answered with a body. */
  ghost predicate IsSent(
      env: R.Env, disk: map<string, B.File>, quota: int, run: seq<S.Action>, t: nat, sha: string, body: string)
  {
    var g := S.Run(quota, env.lib.sha256Hex, S.Started(disk), run);
    && t in g.flights && g.flights[t].Answered? && g.flights[t].q.sha == sha
    && g.flights[t].response.Body? && g.flights[t].response.body == body
  }

  lemma SentVerifies(env: R.Env, disk: map<string, B.File>, quota: int, run: seq<S.Action>, t: nat, sha: string, body: string)
    requires ServesSites(env, disk, quota, run) && IsSent(env, disk, quota, run, t, sha, body)
    ensures env.lib.sha256Hex(body) == sha
  {
    ListedIsProper(env, quota, env.lib.sha256Hex, S.Started(disk), run);
    S.EveryBodyVerifies(disk, quota, env.lib.sha256Hex, run);
  }

  /** The body is what the manifest lists for the path, or what it lists for /404.html when it lists nothing for the path. */
  ghost predicate IsContentOf(env: R.Env, ev: Event, x: string, found: Found, body: string) {
    var paths := M.VerdictOf(ev, env.opts, env.lib).paths;
    if found.Blob? then A.Path(x, env.lib.sha256Hex(body)) in paths
    else A.Path("/404.html", env.lib.sha256Hex(body)) in paths && forall g :: A.Path(x, g) !in paths
  }

  lemma SentIsContent(
      env: R.Env, ev: Event, x: string, found: Found,
      disk: map<string, B.File>, quota: int, run: seq<S.Action>, t: nat, body: string)
    requires R.Validates(env, ev) && PicksExactly(found, x, M.VerdictOf(ev, env.opts, env.lib).paths)
    requires found.Blob? || found.NotFoundPage?
    requires ServesSites(env, disk, quota, run) && IsSent(env, disk, quota, run, t, found.sha, body)
    ensures IsContentOf(env, ev, x, found, body)
  {
    FoundIsListed(env, ev, found, x);
    SentVerifies(env, disk, quota, run, t, found.sha, body);
    assert found.NotFoundPage? ==> found == NotFoundPage(found.sha);
  }

  /**
   Any admitted request, after any history of lookups and in any interleaving with
   others: if it comes to a blob and is answered with a body, the body has the digest
   that one valid manifest of the site lists for the normalised path, or for /404.html
   when it lists nothing for that path.
   */
  lemma SiteBodiesVerify(
      a: Applied, env: R.Env, lt: C.Lifetimes, atGet: seq<C.Call<R.Stored>>, atNegative: seq<C.Call<R.Stored>>,
      seen: R.Seen, host: string, path: string, hits: Hits, clock: R.Clock, ev: Event,
      disk: map<string, B.File>, quota: int, run: seq<S.Action>, t: nat, body: string)
    requires IsAdmitted(a, host, path, env.lib.nip19)
    requires var req := LookupOf(ParseHost(a, host, env.lib.nip19), hits, clock);
             && R.Sees(env, lt, atGet, atNegative, R.KeyOf(req), clock, seen) && R.IsProper(req)
             && R.ManifestLookup(seen, env, req).answer == Ok(Some(ev))
    requires var found := FindBlob(a, seen, env, host, path, hits, clock);
             && (found.Blob? || found.NotFoundPage?)
             && ServesSites(env, disk, quota, run) && IsSent(env, disk, quota, run, t, found.sha, body)
    ensures R.Validates(env, ev)
    ensures IsContentOf(env, ev, P.Normalise(path).value, FindBlob(a, seen, env, host, path, hits, clock), body)
  {
    SitesServeExactly(a, env, lt, atGet, atNegative, seen, host, path, hits, clock, ev);
    SentIsContent(env, ev, P.Normalise(path).value, FindBlob(a, seen, env, host, path, hits, clock), disk, quota, run, t, body);
  }

  /** From publication to the bytes: the same at the own address of a valid root or named manifest. */
  lemma PublishedBodiesVerify(
      ev: Event, env: R.Env, seen: R.Seen, a: Applied, host: string, path: string, hits: Hits, clock: R.Clock,
      disk: map<string, B.File>, quota: int, run: seq<S.Action>, t: nat, body: string)
    requires R.Validates(env, ev) && IsAtHome(a, env, ev, host) && Delivers(seen, hits, ev)
    requires IsAdmitted(a, host, path, env.lib.nip19)
    requires var found := FindBlob(a, seen, env, host, path, hits, clock);
             && (found.Blob? || found.NotFoundPage?)
             && ServesSites(env, disk, quota, run) && IsSent(env, disk, quota, run, t, found.sha, body)
    ensures IsContentOf(env, ev, P.Normalise(path).value, FindBlob(a, seen, env, host, path, hits, clock), body)
  {
    HomeLookup(ev, env, seen, a, host, hits, clock);
    PublishedSiteServesExactly(ev, env, seen, a, host, path, hits, clock);
    SentIsContent(env, ev, P.Normalise(path).value, FindBlob(a, seen, env, host, path, hits, clock), disk, quota, run, t, body);
  }
}
