/** Cached resolution of manifests and releases. */
module Resolve {
  import opened Outcome
  import opened Text
  import opened Nostr
  import opened Arrivals
  import opened ManifestCache
  import M = Manifest
  import N = Npk
  import V = Validation
  import Label

  datatype LookupError = NeedsD | NeedsId

  /** What the cache holds: the gateway keeps it untyped. */
  datatype Stored = AManifest(ev: Event) | ARelease(rel: N.Release)

  datatype Keyed = Keyed(key: string, filter: Filter)

  function KeyAndFilter(siteType: Label.SiteType, pubkey: string, d: string, id: string): Result<Keyed, LookupError> {
    match siteType
    case Root => Ok(Keyed("root:" + pubkey, Filter([], [M.KIND_ROOT], [pubkey], [])))
    case Named =>
      if d == "" then Err(NeedsD)
      else Ok(Keyed("named:" + pubkey + ":" + d, Filter([], [M.KIND_NAMED], [pubkey], [d])))
    case Snapshot =>
      if id == "" then Err(NeedsId)
      else Ok(Keyed("snap:" + id, Filter([id], [M.KIND_SNAPSHOT], [], [])))
  }

  function ReleaseKey(publisher: string, name: string): string { "release:" + publisher + ":" + name }

  datatype Env = Env(relays: seq<string>, opts: M.Options, lib: M.Library, catalogue: Option<N.Catalogue>)

  /** The three clock readings of a lookup. */
  datatype Clock = Clock(get: int, negative: int, put: int)

  datatype Request = Request(siteType: Label.SiteType, pubkey: string, d: string, id: string, hits: Hits, clock: Clock)

  datatype ReleaseRequest = ReleaseRequest(publisher: string, name: string, hits: Hits, revocations: Hits, clock: Clock)

  /** An answer and the cache calls made for it. */
  datatype Lookup<A> = Lookup(answer: A, calls: seq<Call<Stored>>)

  /** What the cache said when asked for an answer, and then for a miss. */
  datatype Seen = Seen(got: Option<Stored>, negative: bool)

  /** What it says of `key` when both are asked of one state. */
  function SeenIn(s: State<Stored>, key: string, clock: Clock): Seen {
    Seen(Fresh(s, key, clock.get), IsNegative(s, key, clock.negative))
  }

  function KeyOf(req: Request): string {
    match KeyAndFilter(req.siteType, req.pubkey, req.d, req.id)
    case Err(_) => ""
    case Ok(Keyed(key, _)) => key
  }

  predicate Validates(env: Env, ev: Event) { M.VerdictOf(ev, env.opts, env.lib).valid }

  function ManifestLookup(seen: Seen, env: Env, req: Request): Lookup<Result<Option<Event>, LookupError>> {
    match KeyAndFilter(req.siteType, req.pubkey, req.d, req.id)
    case Err(e) => Lookup(Err(e), [])
    case Ok(Keyed(key, _)) =>
      var get, negative := Call.Get(key, req.clock.get), Call.Negative(key, req.clock.negative);
      match seen.got
      case Some(v) => Lookup(Ok(if v.AManifest? then Some(v.ev) else None), [get])
      case None =>
        if seen.negative then Lookup(Ok(None), [get, negative])
        else
          var best := NewestOnce(req.hits);
          if best.None? || !Validates(env, best.value)
          then Lookup(Ok(None), [get, negative, Call.PutNegative(key, req.clock.put)])
          else Lookup(Ok(best), [get, negative, Call.Put(key, AManifest(best.value), req.clock.put)])
  }

  /** The catalogue first, then the relays. */
  function FreshRelease(env: Env, req: ReleaseRequest): Option<N.Release> {
    var local := if env.catalogue.Some? then N.CatalogueNewest(env.catalogue.value, req.publisher, req.name) else None;
    if local.Some? then local else N.NewestRelease(env.relays, req.name, req.hits, req.revocations)
  }

  function ReleaseLookup(seen: Seen, env: Env, req: ReleaseRequest): Lookup<Option<N.Release>> {
    var key := ReleaseKey(req.publisher, req.name);
    var get, negative := Call.Get(key, req.clock.get), Call.Negative(key, req.clock.negative);
    match seen.got
    case Some(v) => Lookup(if v.ARelease? then Some(v.rel) else None, [get])
    case None =>
      if seen.negative then Lookup(None, [get, negative])
      else
        match FreshRelease(env, req)
        case None => Lookup(None, [get, negative, Call.PutNegative(key, req.clock.put)])
        case Some(rel) => Lookup(Some(rel), [get, negative, Call.Put(key, ARelease(rel), req.clock.put)])
  }

  function AfterAll(s: State<Stored>, lt: Lifetimes, calls: seq<Call<Stored>>): State<Stored>
    decreases |calls|
  {
    if calls == [] then s else AfterAll(After(s, lt, calls[0]), lt, calls[1..])
  }

  lemma AfterShort(s: State<Stored>, lt: Lifetimes, a: Call<Stored>, b: Call<Stored>, c: Call<Stored>)
    ensures AfterAll(s, lt, [a]) == After(s, lt, a)
    ensures AfterAll(s, lt, [a, b]) == After(After(s, lt, a), lt, b)
    ensures AfterAll(s, lt, [a, b, c]) == After(After(After(s, lt, a), lt, b), lt, c)
  {
    var s1 := After(s, lt, a);
    var s2 := After(s1, lt, b);
    assert [a, b][1..] == [b] && [b][1..] == [] && [a, b, c][1..] == [b, c] && [b, c][1..] == [c] && [c][1..] == [];
    assert AfterAll(s1, lt, [b]) == AfterAll(s2, lt, []) == s2;
    assert AfterAll(s2, lt, [c]) == After(s2, lt, c);
  }

  // ---- Keys ----

  /** With full-length public keys, a key tells which site is meant, and never a release. */
  lemma KeysTellSitesApart(a: Request, b: Request)
    requires |a.pubkey| == 64 && |b.pubkey| == 64
    requires KeyAndFilter(a.siteType, a.pubkey, a.d, a.id).Ok? && KeyAndFilter(b.siteType, b.pubkey, b.d, b.id).Ok?
    requires KeyAndFilter(a.siteType, a.pubkey, a.d, a.id).value.key == KeyAndFilter(b.siteType, b.pubkey, b.d, b.id).value.key
    ensures KeyAndFilter(a.siteType, a.pubkey, a.d, a.id) == KeyAndFilter(b.siteType, b.pubkey, b.d, b.id)
    ensures a.siteType == b.siteType
  {
    var key := KeyAndFilter(a.siteType, a.pubkey, a.d, a.id).value.key;
    assert key[0] == (match a.siteType case Root => 'r' case Named => 'n' case Snapshot => 's');
    match a.siteType
    case Root => assert key[5..] == a.pubkey == b.pubkey;
    case Named =>
      assert key[6..70] == a.pubkey == b.pubkey;
      assert key[71..] == a.d == b.d;
    case Snapshot => assert key[5..] == a.id == b.id;
  }

  lemma ReleaseKeysAreApart(siteType: Label.SiteType, pubkey: string, d: string, id: string, publisher: string, name: string)
    requires KeyAndFilter(siteType, pubkey, d, id).Ok?
    ensures KeyAndFilter(siteType, pubkey, d, id).value.key != ReleaseKey(publisher, name)
  {
    var other := ReleaseKey(publisher, name);
    assert other[0] == 'r' && other[1] == 'e';
  }

  lemma {:induction false} ReleaseKeysTellReleasesApart(p: string, n: string, p': string, n': string)
    requires |p| == 64 && |p'| == 64 && ReleaseKey(p, n) == ReleaseKey(p', n')
    ensures p == p' && n == n'
  {
    var key := ReleaseKey(p, n);
    assert key[8..72] == p == p' && key[73..] == n == n';
  }

  // ---- What the cache may hold ----

  /** A request as the server makes it: a full-length key, and relays that honour its filter. */
  ghost predicate IsProper(req: Request) {
    && |req.pubkey| == 64
    && var keyed := KeyAndFilter(req.siteType, req.pubkey, req.d, req.id);
       keyed.Ok? ==> forall h :: h in req.hits && h.Some? ==> Matches(keyed.value.filter, h.value)
  }

  ghost predicate IsManifestCall(env: Env, call: Call<Stored>) {
    exists seen, req :: IsProper(req) && call in ManifestLookup(seen, env, req).calls
  }

  ghost predicate IsReleaseCall(env: Env, call: Call<Stored>) {
    exists seen, req :: call in ReleaseLookup(seen, env, req).calls
  }

  /** A history of cache calls, interleaved in any way, each made by some lookup. */
  ghost predicate IsHistory(env: Env, calls: seq<Call<Stored>>) {
    forall i :: 0 <= i < |calls| ==> IsManifestCall(env, calls[i]) || IsReleaseCall(env, calls[i])
  }

  /** A proper manifest lookup stores a validated event that its own filter matches. */
  lemma ManifestLookupStores(seen: Seen, env: Env, req: Request, call: Call<Stored>)
    requires IsProper(req) && call in ManifestLookup(seen, env, req).calls && call.Put?
    ensures call.value.AManifest? && M.VerdictOf(call.value.ev, env.opts, env.lib).valid
    ensures KeyAndFilter(req.siteType, req.pubkey, req.d, req.id).Ok?
    ensures call.key == KeyAndFilter(req.siteType, req.pubkey, req.d, req.id).value.key
    ensures Matches(KeyAndFilter(req.siteType, req.pubkey, req.d, req.id).value.filter, call.value.ev)
  {
    NewestOnceIsDelivered(req.hits);
  }

  lemma ReleaseLookupStores(seen: Seen, env: Env, req: ReleaseRequest, call: Call<Stored>)
    requires call in ReleaseLookup(seen, env, req).calls && call.Put?
    ensures call.value.ARelease? && call.key == ReleaseKey(req.publisher, req.name)
  {}

  lemma ManifestPutIsValid(env: Env, call: Call<Stored>, req: Request)
    requires IsManifestCall(env, call) || IsReleaseCall(env, call)
    requires call.Put? && |req.pubkey| == 64
    requires KeyAndFilter(req.siteType, req.pubkey, req.d, req.id).Ok?
    requires call.key == KeyAndFilter(req.siteType, req.pubkey, req.d, req.id).value.key
    ensures call.value.AManifest? && M.VerdictOf(call.value.ev, env.opts, env.lib).valid
    ensures Matches(KeyAndFilter(req.siteType, req.pubkey, req.d, req.id).value.filter, call.value.ev)
  {
    if IsManifestCall(env, call) {
      var seen, other :| IsProper(other) && call in ManifestLookup(seen, env, other).calls;
      ManifestLookupStores(seen, env, other, call);
      KeysTellSitesApart(other, req);
    } else {
      var seen, other :| call in ReleaseLookup(seen, env, other).calls;
      ReleaseLookupStores(seen, env, other, call);
      ReleaseKeysAreApart(req.siteType, req.pubkey, req.d, req.id, other.publisher, other.name);
    }
  }

  lemma {:induction false} NewestOnceIsDelivered(hits: Hits)
    ensures NewestOnce(hits).Some? ==> NewestOnce(hits) in hits
  {
    if hits != [] { NewestOnceIsDelivered(hits[..|hits| - 1]); }
  }

  /** Calls at clock readings that never go back, the last no later than `now`. */
  ghost predicate Before(calls: seq<Call<Stored>>, now: int) {
    Monotone(calls) && forall i :: 0 <= i < |calls| ==> calls[i].now <= now
  }

  /**
   What a lookup sees of its key. Get and Negative take the lock one after the other,
   so calls of other lookups may fall between: each sees the history up to itself.
   */
  ghost predicate Sees(
      env: Env, lt: Lifetimes, atGet: seq<Call<Stored>>, atNegative: seq<Call<Stored>>, key: string, clock: Clock, seen: Seen)
  {
    && IsHistory(env, atGet) && IsHistory(env, atNegative) && atGet <= atNegative
    && Before(atGet, clock.get) && Before(atNegative, clock.negative)
    && seen == Seen(Fresh(Run(lt, atGet), key, clock.get), IsNegative(Run(lt, atNegative), key, clock.negative))
  }

  /** The last store of the key is an answer that has not expired. */
  predicate IsFreshPut(lt: Lifetimes, calls: seq<Call<Stored>>, key: string, now: int) {
    var i := LastStore(calls, key);
    i >= 0 && calls[i].Put? && calls[i].now <= now <= calls[i].now + lt.ttl
  }

  /** The last store of the key is a miss that has not expired. */
  predicate IsFreshMiss(lt: Lifetimes, calls: seq<Call<Stored>>, key: string, now: int) {
    var i := LastStore(calls, key);
    i >= 0 && calls[i].PutNegative? && calls[i].now <= now <= calls[i].now + lt.negTtl
  }

  /** What is seen is the last store of each history, while fresh. */
  lemma SeenExactly(
      env: Env, lt: Lifetimes, atGet: seq<Call<Stored>>, atNegative: seq<Call<Stored>>, key: string, clock: Clock, seen: Seen)
    requires Sees(env, lt, atGet, atNegative, key, clock, seen)
    ensures seen.got == if IsFreshPut(lt, atGet, key, clock.get) then Some(atGet[LastStore(atGet, key)].value) else None
    ensures seen.negative <==> IsFreshMiss(lt, atNegative, key, clock.negative)
  {
    AnswersAreTheLastStore(lt, atGet, key, clock.get);
    AnswersAreTheLastStore(lt, atNegative, key, clock.negative);
  }

  /**
   Every manifest answered, after any interleaving of lookups, passed Validate, is
   of the site asked for, and was selected now or at most `ttl` ago, with nothing
   stored for the site since.
   */
  lemma ManifestAnswersAreSound(
      env: Env, lt: Lifetimes, atGet: seq<Call<Stored>>, atNegative: seq<Call<Stored>>, req: Request, seen: Seen, ev: Event)
    requires Sees(env, lt, atGet, atNegative, KeyOf(req), req.clock, seen) && IsProper(req)
    requires ManifestLookup(seen, env, req).answer == Ok(Some(ev))
    ensures Validates(env, ev)
    ensures Matches(KeyAndFilter(req.siteType, req.pubkey, req.d, req.id).value.filter, ev)
    ensures if IsFreshPut(lt, atGet, KeyOf(req), req.clock.get)
            then atGet[LastStore(atGet, KeyOf(req))].value == AManifest(ev)
            else NewestOnce(req.hits) == Some(ev)
  {
    SeenExactly(env, lt, atGet, atNegative, KeyOf(req), req.clock, seen);
    if IsFreshPut(lt, atGet, KeyOf(req), req.clock.get) {
      ManifestPutIsValid(env, atGet[LastStore(atGet, KeyOf(req))], req);
    } else {
      NewestOnceIsDelivered(req.hits);
    }
  }

  /**
   "No manifest", exactly: nothing fresh is stored for the site, and a miss was stored
   at most `negTtl` ago, or the event selected now is absent or invalid.
   */
  lemma ManifestMissesExactly(
      env: Env, lt: Lifetimes, atGet: seq<Call<Stored>>, atNegative: seq<Call<Stored>>, req: Request, seen: Seen)
    requires Sees(env, lt, atGet, atNegative, KeyOf(req), req.clock, seen) && IsProper(req)
    requires KeyAndFilter(req.siteType, req.pubkey, req.d, req.id).Ok?
    ensures ManifestLookup(seen, env, req).answer == Ok(None) <==>
              && !IsFreshPut(lt, atGet, KeyOf(req), req.clock.get)
              && (IsFreshMiss(lt, atNegative, KeyOf(req), req.clock.negative)
                  || NewestOnce(req.hits).None? || !Validates(env, NewestOnce(req.hits).value))
  {
    SeenExactly(env, lt, atGet, atNegative, KeyOf(req), req.clock, seen);
    if IsFreshPut(lt, atGet, KeyOf(req), req.clock.get) {
      ManifestPutIsValid(env, atGet[LastStore(atGet, KeyOf(req))], req);
    }
  }

  /** What a cache says that has nothing under the key. */
  function Unseen(): Seen { Seen(None, false) }

  /**
   "The newest valid event wins", exactly. When the cache has nothing and some arrival
   is valid, the lookup answers with a newest valid arrival if and only if the event
   selected is valid and no valid repeat of an id is newer; and it answers with none if
   and only if the event selected is not valid, though an older one be.
   */
  lemma NewestValidManifestExactly(env: Env, req: Request)
    requires KeyAndFilter(req.siteType, req.pubkey, req.d, req.id).Ok?
    requires exists h :: h in req.hits && h.Some? && Validates(env, h.value)
    ensures NewestOnce(req.hits).Some?
    ensures var answer, best := ManifestLookup(Unseen(), env, req).answer, NewestOnce(req.hits).value;
            && ((exists ev :: answer == Ok(Some(ev)) && IsNewestValid(req.hits, Validity(env), ev)) <==>
                  && Validates(env, best)
                  && forall i :: IsRepeat(req.hits, i) && Validates(env, req.hits[i].value) ==>
                       req.hits[i].value.createdAt <= best.createdAt)
            && (answer == Ok(None) <==> !Validates(env, best))
  {
    NewestValidOnceExactly(req.hits, Validity(env));
  }

  function Validity(env: Env): Event -> bool { (ev: Event) => Validates(env, ev) }

  /** Where an id fixes its timestamp, that is exactly when the newest arrival is valid. */
  lemma NewestValidWhereIdsFixTimes(env: Env, req: Request)
    requires KeyAndFilter(req.siteType, req.pubkey, req.d, req.id).Ok? && IdsFixTimes(req.hits)
    requires exists h :: h in req.hits && h.Some? && Validates(env, h.value)
    ensures Newest(req.hits).Some?
    ensures (exists ev :: ManifestLookup(Unseen(), env, req).answer == Ok(Some(ev))
                          && IsNewestValid(req.hits, Validity(env), ev))
       <==> Validates(env, Newest(req.hits).value)
  {
    SkippingRepeatsChangesNothing(req.hits);
    NewestValidExactly(req.hits, Validity(env));
  }

  function OnePage(id: string, pubkey: string, at: int, digest: string): Event {
    Event(id, pubkey, at, M.KIND_ROOT, [["path", "/index.html", digest]], "", "")
  }

  lemma OnePageIsValid(env: Env, ev: Event, digest: string)
    requires M.IsDigest(env.lib.sha256Hex) && M.IsSHA256Hex(digest) && M.PathLimit(env.opts) >= 1
    requires ev == OnePage(ev.id, ev.pubkey, ev.createdAt, digest) && ev.pubkey !in env.opts.forbidden
    requires env.lib.checkId(ev) && env.lib.checkSignature(ev)
    ensures Validates(env, ev)
  {
    var name := "index.html";
    assert "/" + name == "/index.html" && name[5] == '.' && name[0] == 'i';
    V.TopFileIsGood(name, digest);
    V.OnePathIsManifest(ev, ["path", "/index.html", digest], env.opts, env.lib);
  }

  lemma NoPagesIsInvalid(env: Env, ev: Event)
    requires M.IsDigest(env.lib.sha256Hex) && ev.tags == []
    ensures !Validates(env, ev)
  {
    M.ValidExactly(ev, env.opts, env.lib);
  }

  /** A newer event without a page hides a valid manifest, in whichever order the two arrive. */
  lemma OlderValidManifestIsHidden(env: Env, older: Event, newer: Event, digest: string, clock: Clock)
    requires M.IsDigest(env.lib.sha256Hex) && M.IsSHA256Hex(digest) && M.PathLimit(env.opts) >= 1
    requires older == OnePage(older.id, older.pubkey, older.createdAt, digest) && older.pubkey !in env.opts.forbidden
    requires env.lib.checkId(older) && env.lib.checkSignature(older)
    requires newer.tags == [] && newer.id != older.id && older.createdAt < newer.createdAt
    ensures Validates(env, older)
    ensures forall hits :: hits == [Some(older), Some(newer)] || hits == [Some(newer), Some(older)] ==>
              ManifestLookup(Unseen(), env, Request(Label.Root, older.pubkey, "", "", hits, clock)).answer == Ok(None)
  {
    OnePageIsValid(env, older, digest);
    NoPagesIsInvalid(env, newer);
    forall hits | hits == [Some(older), Some(newer)] || hits == [Some(newer), Some(older)]
      ensures ManifestLookup(Unseen(), env, Request(Label.Root, older.pubkey, "", "", hits, clock)).answer == Ok(None)
    {
      NewerWins(older, newer, hits);
    }
  }

  /**
   And an event that carries the id of the newest valid manifest, delivered before it,
   makes the lookup answer with an older one.
   */
  lemma RepeatedIdHidesManifest(env: Env, forged: Event, older: Event, newest: Event, digest: string, clock: Clock)
    requires M.IsDigest(env.lib.sha256Hex) && M.IsSHA256Hex(digest) && M.PathLimit(env.opts) >= 1
    requires older == OnePage(older.id, older.pubkey, older.createdAt, digest) && older.pubkey !in env.opts.forbidden
    requires newest == OnePage(newest.id, older.pubkey, newest.createdAt, digest) && newest.id != older.id
    requires env.lib.checkId(older) && env.lib.checkSignature(older)
    requires env.lib.checkId(newest) && env.lib.checkSignature(newest)
    requires forged.id == newest.id && forged.createdAt < older.createdAt < newest.createdAt
    ensures Validates(env, older) && Validates(env, newest)
    ensures var hits := [Some(forged), Some(older), Some(newest)];
            ManifestLookup(Unseen(), env, Request(Label.Root, older.pubkey, "", "", hits, clock)).answer == Ok(Some(older))
  {
    OnePageIsValid(env, older, digest);
    OnePageIsValid(env, newest, digest);
    ForgedIdSkips(forged, older, newest);
  }

  lemma ForgedIdSkips(forged: Event, older: Event, newest: Event)
    requires forged.id == newest.id && forged.id != older.id && forged.createdAt < older.createdAt
    ensures NewestOnce([Some(forged), Some(older), Some(newest)]) == Some(older)
  {
    var hits := [Some(forged), Some(older), Some(newest)];
    assert hits[..2] == [Some(forged), Some(older)] && hits[..2][..1] == [Some(forged)] && hits[..1][..0] == [];
    assert NewestOnce([Some(forged)]) == Some(forged);
    assert Some(forged) in hits[..2] && newest.id in Ids(hits[..2]);
    assert NewestOnce(hits[..2]) == Some(older);
  }

  lemma NewerWins(older: Event, newer: Event, hits: Hits)
    requires hits == [Some(older), Some(newer)] || hits == [Some(newer), Some(older)]
    requires newer.id != older.id && older.createdAt < newer.createdAt
    ensures NewestOnce(hits) == Some(newer)
  {
    assert forall h :: h in hits <==> h == Some(older) || h == Some(newer);
    NewestIsMaximal(hits);
    SkippingRepeatsChangesNothing(hits);
  }

  lemma ReleasePutIsTyped(env: Env, call: Call<Stored>, publisher: string, name: string)
    requires IsManifestCall(env, call) || IsReleaseCall(env, call)
    requires call.Put? && call.key == ReleaseKey(publisher, name)
    ensures call.value.ARelease?
  {
    if IsManifestCall(env, call) {
      var seen, req :| IsProper(req) && call in ManifestLookup(seen, env, req).calls;
      ManifestLookupStores(seen, env, req, call);
      ReleaseKeysAreApart(req.siteType, req.pubkey, req.d, req.id, publisher, name);
    }
  }

  /** Every release answered was resolved now or at most `ttl` ago, with nothing stored for it since; misses likewise. */
  lemma ReleaseAnswersAreSound(
      env: Env, lt: Lifetimes, atGet: seq<Call<Stored>>, atNegative: seq<Call<Stored>>, req: ReleaseRequest, seen: Seen)
    requires Sees(env, lt, atGet, atNegative, ReleaseKey(req.publisher, req.name), req.clock, seen)
    ensures var answer, key := ReleaseLookup(seen, env, req).answer, ReleaseKey(req.publisher, req.name);
            if IsFreshPut(lt, atGet, key, req.clock.get)
            then atGet[LastStore(atGet, key)].value.ARelease? && answer == Some(atGet[LastStore(atGet, key)].value.rel)
            else if IsFreshMiss(lt, atNegative, key, req.clock.negative) then answer == None
            else answer == FreshRelease(env, req)
  {
    var key := ReleaseKey(req.publisher, req.name);
    SeenExactly(env, lt, atGet, atNegative, key, req.clock, seen);
    if IsFreshPut(lt, atGet, key, req.clock.get) {
      ReleasePutIsTyped(env, atGet[LastStore(atGet, key)], req.publisher, req.name);
    }
  }

  // ---- The resolver ----

  class Resolver {
    const env: Env
    const mcache: Cache<Stored>

    constructor (env: Env, mcache: Cache<Stored>)
      ensures this.env == env && this.mcache == mcache
    {
      this.env, this.mcache := env, mcache;
    }

    method Manifest(req: Request) returns (r: Result<Option<Event>, LookupError>)
      modifies mcache
      ensures var seen := SeenIn(old(mcache.View()), KeyOf(req), req.clock);
              && r == ManifestLookup(seen, env, req).answer
              && mcache.View() == AfterAll(old(mcache.View()), mcache.lt, ManifestLookup(seen, env, req).calls)
    {
      var keyed := KeyAndFilter(req.siteType, req.pubkey, req.d, req.id);
      if keyed.Err? { return Err(keyed.error); }
      var key := keyed.value.key;
      ghost var start, get, negate := mcache.View(), Call.Get(key, req.clock.get), Call.Negative(key, req.clock.negative);
      AfterShort(start, mcache.lt, get, negate, Call.PutNegative(key, req.clock.put));
      var cached := mcache.Get(key, req.clock.get);
      if cached.Some? {
        return Ok(if cached.value.AManifest? then Some(cached.value.ev) else None);
      }
      var negative := mcache.Negative(key, req.clock.negative);
      if negative { return Ok(None); }
      var best := NewestEvent(req.hits, true);
      if best.None? {
        mcache.PutNegative(key, req.clock.put);
        return Ok(None);
      }
      var v := V.Validate(best.value, env.opts, env.lib);
      if !v.valid {
        mcache.PutNegative(key, req.clock.put);
        return Ok(None);
      }
      AfterShort(start, mcache.lt, get, negate, Call.Put(key, AManifest(best.value), req.clock.put));
      mcache.Put(key, AManifest(best.value), req.clock.put);
      return Ok(best);
    }

    method Release(req: ReleaseRequest) returns (r: Option<N.Release>)
      modifies mcache
      ensures var seen := SeenIn(old(mcache.View()), ReleaseKey(req.publisher, req.name), req.clock);
              && r == ReleaseLookup(seen, env, req).answer
              && mcache.View() == AfterAll(old(mcache.View()), mcache.lt, ReleaseLookup(seen, env, req).calls)
    {
      var key := "release:" + req.publisher + ":" + req.name;
      ghost var start, get, negate := mcache.View(), Call.Get(key, req.clock.get), Call.Negative(key, req.clock.negative);
      AfterShort(start, mcache.lt, get, negate, Call.PutNegative(key, req.clock.put));
      var cached := mcache.Get(key, req.clock.get);
      if cached.Some? {
        return if cached.value.ARelease? then Some(cached.value.rel) else None;
      }
      var negative := mcache.Negative(key, req.clock.negative);
      if negative { return None; }
      if env.catalogue.Some? {
        r := N.CatalogueNewestLoop(env.catalogue.value, req.publisher, req.name);
        if r.Some? {
          AfterShort(start, mcache.lt, get, negate, Call.Put(key, ARelease(r.value), req.clock.put));
          mcache.Put(key, ARelease(r.value), req.clock.put);
          return;
        }
      }
      r := N.NewestReleaseLoop(env.relays, req.name, req.hits, req.revocations);
      if r.None? {
        mcache.PutNegative(key, req.clock.put);
      } else {
        AfterShort(start, mcache.lt, get, negate, Call.Put(key, ARelease(r.value), req.clock.put));
        mcache.Put(key, ARelease(r.value), req.clock.put);
      }
    }
  }
}
