/** From a valid manifest to the address it is served at, and back. */
module Addressing {
  import opened Outcome
  import opened Text
  import opened Nostr
  import opened Arrivals
  import opened Routing
  import L = Label
  import M = Manifest
  import V = Validation
  import A = Aggregate
  import R = Resolve
  import C = ManifestCache
  import P = RequestPath

  /** nip19 for one key: an npub fit for a DNS label that decodes to the key. */
  ghost predicate LawfulFor(nip19: L.Nip19, pubkey: string) {
    && nip19.encodePublicKey(pubkey).Some?
    && var npub := nip19.encodePublicKey(pubkey).value;
       && HasPrefix(npub, "npub1") && |npub| <= L.LABEL_MAX_LEN && All(npub, IsHostChar)
       && nip19.decode(npub) == Some(L.Bech32("npub", Some(pubkey)))
  }

  ghost predicate IsGatewayDomain(domain: string) { IsHostname(domain) && Lower(domain) == domain }

  /** The address a valid manifest's label gives it, with or without a port. */
  ghost predicate IsAddressOf(host: string, labelText: string, domain: string) {
    || host == labelText + "." + domain
    || exists port :: All(port, IsDigit) && host == labelText + "." + domain + ":" + port
  }

  lemma AddressRoutes(a: Applied, labelText: string, host: string, nip19: L.Nip19)
    requires IsGatewayDomain(a.domain) && IsAddressOf(host, labelText, a.domain)
    requires 1 <= |labelText| <= L.LABEL_MAX_LEN && All(labelText, IsHostChar)
    requires L.DecodeLabel(labelText, nip19).Site?
    ensures var site := L.DecodeLabel(labelText, nip19);
            ParseHost(a, host, nip19) == Routed(labelText, site.siteType, site.hexId, site.d)
  {
    if host == labelText + "." + a.domain {
      LabelsRoute(a, labelText, "", host, nip19);
    } else {
      var port :| All(port, IsDigit) && host == labelText + "." + a.domain + ":" + port;
      LabelsRoute(a, labelText, port, host, nip19);
    }
  }

  /** The d of a valid named manifest is the value of its one d tag. */
  lemma ValidNamedD(ev: Event, opts: M.Options, lib: M.Library)
    requires M.IsDigest(lib.sha256Hex) && M.VerdictOf(ev, opts, lib).valid && ev.kind == M.KIND_NAMED
    ensures L.IsValidD(M.VerdictOf(ev, opts, lib).d)
    ensures exists i :: 0 <= i < |ev.tags| && |ev.tags[i]| >= 2 && ev.tags[i][0] == "d"
                        && ev.tags[i][1] == M.VerdictOf(ev, opts, lib).d
  {
    M.ValidExactly(ev, opts, lib);
    var picked := Select(ev.tags, Valued("d"));
    SelectPicks(ev.tags, Valued("d"));
    assert picked[0] in picked;
    var i :| 0 <= i < |ev.tags| && ev.tags[i] == picked[0];
    assert Valued("d")(ev.tags[i]);
  }

  lemma NamedLabelChars(pubkey: string, d: string)
    requires L.IsKeyHex(pubkey) && L.IsValidD(d)
    ensures L.NamedLabel(pubkey, d).Ok? && All(L.NamedLabel(pubkey, d).value, IsHostChar)
  {
    L.DecodeInvertsEncode(pubkey);
  }

  /** The filter for a named site asks for its author's key and its d. */
  lemma NamedFilterMatches(ev: Event, pubkey: string, d: string)
    requires ev.kind == M.KIND_NAMED && d != ""
    requires exists i :: 0 <= i < |ev.tags| && |ev.tags[i]| >= 2 && ev.tags[i][0] == "d" && ev.tags[i][1] == d
    ensures R.KeyAndFilter(L.Named, pubkey, d, "").Ok?
    ensures Matches(R.KeyAndFilter(L.Named, pubkey, d, "").value.filter, ev) <==> pubkey == ev.pubkey
  {}

  lemma NamedLabelRoutes(a: Applied, pubkey: string, d: string, host: string, nip19: L.Nip19)
    requires L.IsKeyHex(pubkey) && L.IsValidD(d) && L.NamedLabel(pubkey, d).Ok?
    requires IsGatewayDomain(a.domain) && IsAddressOf(host, L.NamedLabel(pubkey, d).value, a.domain)
    ensures ParseHost(a, host, nip19) == Routed(L.NamedLabel(pubkey, d).value, L.Named, Lower(pubkey), d)
  {
    NamedLabelChars(pubkey, d);
    L.DecodeInvertsNamed(pubkey, d, nip19);
    AddressRoutes(a, L.NamedLabel(pubkey, d).value, host, nip19);
  }

  /**
   A valid named manifest is asked for at its own label; the filter sent to the
   relays then matches it exactly when its author's key is in lower case.
   */
  lemma NamedManifestIsAddressed(ev: Event, opts: M.Options, lib: M.Library, a: Applied, host: string)
    requires M.IsDigest(lib.sha256Hex) && M.VerdictOf(ev, opts, lib).valid
    requires ev.kind == M.KIND_NAMED && L.IsKeyHex(ev.pubkey)
    requires IsGatewayDomain(a.domain) && IsAddressOf(host, M.VerdictOf(ev, opts, lib).labelText, a.domain)
    ensures var v := M.VerdictOf(ev, opts, lib);
            v.siteType == Some(L.Named)
            && ParseHost(a, host, lib.nip19) == Routed(v.labelText, L.Named, Lower(ev.pubkey), v.d)
    ensures var d := M.VerdictOf(ev, opts, lib).d;
            && R.KeyAndFilter(L.Named, Lower(ev.pubkey), d, "").Ok?
            && (Matches(R.KeyAndFilter(L.Named, Lower(ev.pubkey), d, "").value.filter, ev) <==> Lower(ev.pubkey) == ev.pubkey)
  {
    var d := M.VerdictOf(ev, opts, lib).d;
    ValidNamedD(ev, opts, lib);
    NamedLabelChars(ev.pubkey, d);
    NamedFilterMatches(ev, Lower(ev.pubkey), d);
    NamedLabelRoutes(a, ev.pubkey, d, host, lib.nip19);
  }

  /** A valid root manifest is asked for at its author's npub. */
  lemma RootManifestIsAddressed(ev: Event, opts: M.Options, lib: M.Library, a: Applied, host: string)
    requires M.VerdictOf(ev, opts, lib).valid
    requires ev.kind == M.KIND_ROOT && L.IsLowerKeyHex(ev.pubkey) && LawfulFor(lib.nip19, ev.pubkey)
    requires IsGatewayDomain(a.domain) && IsAddressOf(host, M.VerdictOf(ev, opts, lib).labelText, a.domain)
    ensures var v := M.VerdictOf(ev, opts, lib);
            v.siteType == Some(L.Root) && ParseHost(a, host, lib.nip19) == Routed(v.labelText, L.Root, ev.pubkey, "")
    ensures R.KeyAndFilter(L.Root, ev.pubkey, "", "").Ok?
    ensures Matches(R.KeyAndFilter(L.Root, ev.pubkey, "", "").value.filter, ev)
  {
    AddressRoutes(a, M.VerdictOf(ev, opts, lib).labelText, host, lib.nip19);
  }

  lemma SnapshotLabelRoutes(a: Applied, id: string, host: string, nip19: L.Nip19)
    requires L.IsKeyHex(id) && L.SnapshotLabel(id).Ok?
    requires IsGatewayDomain(a.domain) && IsAddressOf(host, L.SnapshotLabel(id).value, a.domain)
    ensures ParseHost(a, host, nip19) == Routed(L.SnapshotLabel(id).value, L.Snapshot, Lower(id), "")
  {
    L.DecodeInvertsSnapshot(id, nip19);
    L.DecodeInvertsEncode(id);
    AddressRoutes(a, L.SnapshotLabel(id).value, host, nip19);
  }

  /** A valid snapshot's label leads back to its event. */
  lemma SnapshotManifestIsAddressed(ev: Event, opts: M.Options, lib: M.Library, a: Applied, host: string)
    requires M.VerdictOf(ev, opts, lib).valid && ev.kind == M.KIND_SNAPSHOT && L.IsKeyHex(ev.id)
    requires IsGatewayDomain(a.domain) && IsAddressOf(host, M.VerdictOf(ev, opts, lib).labelText, a.domain)
    ensures var v := M.VerdictOf(ev, opts, lib);
            v.siteType == Some(L.Snapshot)
            && ParseHost(a, host, lib.nip19) == Routed(v.labelText, L.Snapshot, Lower(ev.id), "")
  {
    L.DecodeInvertsSnapshot(ev.id, lib.nip19);
    SnapshotLabelRoutes(a, ev.id, host, lib.nip19);
  }

  // ---- The whole way ----

  /** What a public request comes to: a blob hash to serve, or a refusal. */
  datatype Found = ApexPage | Refused | NoManifest | Blob(sha: string) | NotFoundPage(sha: string) | NoPage

  /** The path's own entry, or the manifest's page for what is not found. */
  function Pick(paths: map<string, string>, x: string): Found {
    if x in paths then Blob(paths[x])
    else if "/404.html" in paths then NotFoundPage(paths["/404.html"])
    else NoPage
  }

  /**
   handlePublic and serveSite, up to the blob, given what the manifest cache says;
   `path` is the URL's path, which net/http has decoded once already.
   */
  function FindBlob(
      a: Applied, seen: R.Seen, env: R.Env, host: string, path: string, hits: Hits, clock: R.Clock): Found
  {
    if HasPrefix(path, "/internal/") then Refused
    else if IsApex(a, host) then ApexPage
    else
      match ParseHost(a, host, env.lib.nip19)
      case NoSite => Refused
      case Routed(_, siteType, pubkey, d) =>
        if !Allowlisted(a, siteType, pubkey) || P.Normalise(path).None? then Refused
        else
          match R.ManifestLookup(seen, env, R.Request(siteType, pubkey, d, "", hits, clock)).answer
          case Err(_) => NoManifest
          case Ok(None) => NoManifest
          case Ok(Some(ev)) =>
            Pick(V.PathMap(ev.tags), P.Normalise(path).value)
  }

  lemma MappedExactly(ev: Event, opts: M.Options, lib: M.Library)
    requires M.IsDigest(lib.sha256Hex) && M.VerdictOf(ev, opts, lib).valid
    ensures forall x, h :: x in V.PathMap(ev.tags) && V.PathMap(ev.tags)[x] == h
                      <==> A.Path(x, h) in M.VerdictOf(ev, opts, lib).paths
  {
    V.ServedPathsAreTheVerdicts(ev, opts, lib);
  }

  /** What a path comes to by a list of entries: its own blob, or else the one for /404.html, or else no page. */
  ghost predicate PicksExactly(found: Found, x: string, paths: seq<A.Path>) {
    && (forall h :: found == Blob(h) <==> A.Path(x, h) in paths)
    && (forall h :: found == NotFoundPage(h) <==>
          A.Path("/404.html", h) in paths && forall g :: A.Path(x, g) !in paths)
    && (found == NoPage <==> forall g :: A.Path(x, g) !in paths && A.Path("/404.html", g) !in paths)
  }

  /** A request that gets as far as looking for its manifest. */
  predicate IsAdmitted(a: Applied, host: string, path: string, nip19: L.Nip19) {
    && !HasPrefix(path, "/internal/") && P.Normalise(path).Some? && ParseHost(a, host, nip19).Routed?
    && Allowlisted(a, ParseHost(a, host, nip19).siteType, ParseHost(a, host, nip19).hexId)
  }

  /** The manifest lookup that a routed host calls for. */
  function LookupOf(r: Routed, hits: Hits, clock: R.Clock): R.Request
    requires r.Routed?
  {
    R.Request(r.siteType, r.hexId, r.d, "", hits, clock)
  }

  lemma AdmittedPicks(
      a: Applied, seen: R.Seen, env: R.Env, host: string, path: string, hits: Hits, clock: R.Clock, ev: Event)
    requires M.IsDigest(env.lib.sha256Hex) && R.Validates(env, ev) && IsAdmitted(a, host, path, env.lib.nip19)
    requires R.ManifestLookup(seen, env, LookupOf(ParseHost(a, host, env.lib.nip19), hits, clock)).answer == Ok(Some(ev))
    ensures PicksExactly(FindBlob(a, seen, env, host, path, hits, clock),
                         P.Normalise(path).value, M.VerdictOf(ev, env.opts, env.lib).paths)
  {
    MappedExactly(ev, env.opts, env.lib);
    PickExactly(V.PathMap(ev.tags), M.VerdictOf(ev, env.opts, env.lib).paths, P.Normalise(path).value);
  }

  /**
   Any admitted request whose lookup answers, after any history of lookups: it comes to
   what one manifest lists for its path, and that manifest is valid, is of the site the
   host names, and is the site's last stored answer, not expired, or else the relays'
   newest event now.
   */
  lemma SitesServeExactly(
      a: Applied, env: R.Env, lt: C.Lifetimes, atGet: seq<C.Call<R.Stored>>, atNegative: seq<C.Call<R.Stored>>,
      seen: R.Seen, host: string, path: string, hits: Hits, clock: R.Clock, ev: Event)
    requires M.IsDigest(env.lib.sha256Hex) && IsAdmitted(a, host, path, env.lib.nip19)
    requires var req := LookupOf(ParseHost(a, host, env.lib.nip19), hits, clock);
             && R.Sees(env, lt, atGet, atNegative, R.KeyOf(req), clock, seen) && R.IsProper(req)
             && R.ManifestLookup(seen, env, req).answer == Ok(Some(ev))
    ensures PicksExactly(FindBlob(a, seen, env, host, path, hits, clock),
                         P.Normalise(path).value, M.VerdictOf(ev, env.opts, env.lib).paths)
    ensures var req := LookupOf(ParseHost(a, host, env.lib.nip19), hits, clock);
            && R.Validates(env, ev)
            && Matches(R.KeyAndFilter(req.siteType, req.pubkey, req.d, "").value.filter, ev)
            && if R.IsFreshPut(lt, atGet, R.KeyOf(req), clock.get)
               then atGet[C.LastStore(atGet, R.KeyOf(req))].value == R.AManifest(ev)
               else NewestOnce(hits) == Some(ev)
  {
    R.ManifestAnswersAreSound(env, lt, atGet, atNegative, LookupOf(ParseHost(a, host, env.lib.nip19), hits, clock), seen, ev);
    AdmittedPicks(a, seen, env, host, path, hits, clock, ev);
  }

  /** The manifest's own address: a root's under its npub, a named one's under its label. */
  ghost predicate IsAtHome(a: Applied, env: R.Env, ev: Event, host: string) {
    && (ev.kind == M.KIND_NAMED || (ev.kind == M.KIND_ROOT && LawfulFor(env.lib.nip19, ev.pubkey)))
    && L.IsLowerKeyHex(ev.pubkey)
    && IsGatewayDomain(a.domain) && IsAddressOf(host, M.VerdictOf(ev, env.opts, env.lib).labelText, a.domain)
  }

  /** What the cache may say of a site for its lookup to answer `ev`: that, or nothing while the relays deliver it as newest. */
  predicate Delivers(seen: R.Seen, hits: Hits, ev: Event) {
    seen.got == Some(R.AManifest(ev)) || (seen == R.Unseen() && NewestOnce(hits) == Some(ev))
  }

  lemma HomeLookup(ev: Event, env: R.Env, seen: R.Seen, a: Applied, host: string, hits: Hits, clock: R.Clock)
    requires M.IsDigest(env.lib.sha256Hex) && R.Validates(env, ev) && IsAtHome(a, env, ev, host) && Delivers(seen, hits, ev)
    ensures var r := ParseHost(a, host, env.lib.nip19);
            && r.Routed? && r.hexId == ev.pubkey && r.siteType == (if ev.kind == M.KIND_NAMED then L.Named else L.Root)
            && R.ManifestLookup(seen, env, LookupOf(r, hits, clock)).answer == Ok(Some(ev))
  {
    LowerKeyIsLower(ev.pubkey);
    if ev.kind == M.KIND_NAMED {
      NamedManifestIsAddressed(ev, env.opts, env.lib, a, host);
    } else {
      RootManifestIsAddressed(ev, env.opts, env.lib, a, host);
    }
  }

  /**
   From publication to the blob. A request for the own address of a valid root or named
   manifest, by any spelling that is accepted, comes to the blob the manifest lists for
   the normalised path, or else to the one it lists for /404.html, or else to no page;
   when the author is admitted, and the cache holds that manifest or the relays deliver
   it as newest.
   */
  lemma PublishedSiteServesExactly(
      ev: Event, env: R.Env, seen: R.Seen, a: Applied, host: string, path: string, hits: Hits, clock: R.Clock)
    requires M.IsDigest(env.lib.sha256Hex) && R.Validates(env, ev) && IsAtHome(a, env, ev, host) && Delivers(seen, hits, ev)
    requires Allowlisted(a, if ev.kind == M.KIND_NAMED then L.Named else L.Root, ev.pubkey)
    requires P.Normalise(path).Some? && !HasPrefix(path, "/internal/")
    ensures PicksExactly(FindBlob(a, seen, env, host, path, hits, clock),
                         P.Normalise(path).value, M.VerdictOf(ev, env.opts, env.lib).paths)
  {
    HomeLookup(ev, env, seen, a, host, hits, clock);
    AdmittedPicks(a, seen, env, host, path, hits, clock, ev);
  }

  lemma PickExactly(m: map<string, string>, paths: seq<A.Path>, x: string)
    requires forall y, h :: y in m && m[y] == h <==> A.Path(y, h) in paths
    ensures PicksExactly(Pick(m, x), x, paths)
  {
    var page := "/404.html";
    assert x in m <==> A.Path(x, if x in m then m[x] else "") in paths;
    assert page in m <==> A.Path(page, if page in m then m[page] else "") in paths;
  }

  /** A snapshot is never served: its lookup has no id to ask for. */
  lemma SnapshotsAreNeverServed(
      a: Applied, seen: R.Seen, env: R.Env, host: string, path: string, hits: Hits, clock: R.Clock)
    requires ParseHost(a, host, env.lib.nip19).Routed? && ParseHost(a, host, env.lib.nip19).siteType == L.Snapshot
    ensures FindBlob(a, seen, env, host, path, hits, clock) in {Refused, NoManifest}
  {}

  lemma LowerKeyIsLower(pubkey: string)
    requires L.IsLowerKeyHex(pubkey)
    ensures L.IsKeyHex(pubkey) && Lower(pubkey) == pubkey
  {}
}
