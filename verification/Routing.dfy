/** From a Host header to the site it names, and the configuration that makes this unambiguous. */
module Routing {
  import opened Outcome
  import opened Text
  import L = Label

  datatype CustomDomain = CustomDomain(fqdn: string, pubkey: string, d: string)

  /** The part of the configuration that routing depends on; `sites` are the listed public keys. */
  datatype Config = Config(domain: string, mode: string, sites: seq<string>, customDomains: seq<CustomDomain>)

  datatype ConfigError =
    | NoDomain | BadDomain | BadMode | BadSiteKey
    | NoFqdn | BadFqdn | OverlapsGateway | ParentOfGateway | DuplicateFqdn | BadKey

  datatype CustomSite = CustomSite(siteType: L.SiteType, pubkey: string, d: string)

  // ---- Host names ----

  predicate IsAlnum(c: char, anyCase: bool) { IsBase36(c) || (anyCase && 'A' <= c <= 'Z') }

  /** One label of hostnameRe. */
  predicate IsHostLabel(s: string, anyCase: bool) {
    && 1 <= |s| <= 63
    && (forall i :: 0 <= i < |s| ==> IsAlnum(s[i], anyCase) || s[i] == '-')
    && IsAlnum(s[0], anyCase) && IsAlnum(s[|s| - 1], anyCase)
  }

  /** hostnameRe: its case-insensitive group covers the first label only. */
  predicate IsHostname(s: string) { AreHostLabels(Split(s, '.'), true) }

  predicate AreHostLabels(labels: seq<string>, anyCase: bool) {
    && labels != [] && IsHostLabel(labels[0], anyCase)
    && forall i :: 1 <= i < |labels| ==> IsHostLabel(labels[i], false)
  }

  function Normal(fqdn: string): string { Lower(TrimSuffix(fqdn, ".")) }

  predicate IsSpace(c: char) { c == ' ' || '\t' <= c <= '\r' }

  function TrimLeft(s: string): string { if s != "" && IsSpace(s[0]) then TrimLeft(s[1..]) else s }

  function TrimRight(s: string): string {
    if s != "" && IsSpace(s[|s| - 1]) then TrimRight(s[..|s| - 1]) else s
  }

  function TrimSpace(s: string): string { TrimRight(TrimLeft(s)) }

  /** All before the last colon, or all. */
  function StripPort(host: string): string {
    var tail := AfterLast(host, ':');
    if |tail| < |host| then host[..|host| - |tail| - 1] else host
  }

  /** The name a Host header gives. */
  function HostName(host: string): string
  {
    AfterLastIsLastSegment(Lower(TrimSpace(host)), ':');
    StripPort(Lower(TrimSpace(host)))
  }

  // ---- Validation ----

  /** One turn of Validate's loop over custom domains. */
  function CheckDomain(domain: string, cd: CustomDomain, seen: set<string>): Option<ConfigError> {
    var fqdn := Normal(cd.fqdn);
    if cd.fqdn == "" then Some(NoFqdn)
    else if !IsHostname(fqdn) then Some(BadFqdn)
    else if fqdn == domain || HasSuffix(fqdn, "." + domain) then Some(OverlapsGateway)
    else if HasSuffix(domain, "." + fqdn) then Some(ParentOfGateway)
    else if fqdn in seen then Some(DuplicateFqdn)
    else if |cd.pubkey| != 64 then Some(BadKey)
    else None
  }

  function CheckDomains(domain: string, cds: seq<CustomDomain>, seen: set<string>): Option<ConfigError> {
    if cds == [] then None
    else
      var e := CheckDomain(domain, cds[0], seen);
      if e.Some? then e else CheckDomains(domain, cds[1..], seen + {Normal(cds[0].fqdn)})
  }

  function Validate(cfg: Config): Option<ConfigError> {
    if cfg.domain == "" then Some(NoDomain)
    else if !IsHostname(cfg.domain) then Some(BadDomain)
    else if cfg.mode != "hosted" && cfg.mode != "open" then Some(BadMode)
    else if exists i :: 0 <= i < |cfg.sites| && |cfg.sites[i]| != 64 then Some(BadSiteKey)
    else CheckDomains(cfg.domain, cfg.customDomains, {})
  }

  /** A custom domain that neither meets nor contains the gateway's. */
  predicate FitsGateway(domain: string, cd: CustomDomain) {
    var fqdn := Normal(cd.fqdn);
    && cd.fqdn != "" && IsHostname(fqdn) && |cd.pubkey| == 64
    && fqdn != domain && !HasSuffix(fqdn, "." + domain) && !HasSuffix(domain, "." + fqdn)
  }

  /** The rules for the custom domains, without an order. */
  ghost predicate DomainsAreApart(domain: string, cds: seq<CustomDomain>) {
    && (forall i :: 0 <= i < |cds| ==> FitsGateway(domain, cds[i]))
    && (forall i, j :: 0 <= i < j < |cds| ==> Normal(cds[i].fqdn) != Normal(cds[j].fqdn))
  }

  lemma ApartCons(domain: string, cd: CustomDomain, rest: seq<CustomDomain>)
    ensures DomainsAreApart(domain, [cd] + rest) <==>
              FitsGateway(domain, cd) && DomainsAreApart(domain, rest)
              && forall i :: 0 <= i < |rest| ==> Normal(rest[i].fqdn) != Normal(cd.fqdn)
  {
    var all := [cd] + rest;
    assert all[0] == cd && forall i :: 0 <= i < |rest| ==> all[i + 1] == rest[i];
    assert forall i :: 0 < i < |all| ==> all[i] == rest[i - 1];
  }

  lemma {:induction false} CheckDomainsExactly(domain: string, cds: seq<CustomDomain>, seen: set<string>)
    ensures CheckDomains(domain, cds, seen).None? <==>
              DomainsAreApart(domain, cds) && forall i :: 0 <= i < |cds| ==> Normal(cds[i].fqdn) !in seen
    decreases |cds|
  {
    if cds != [] {
      var cd, rest := cds[0], cds[1..];
      assert cds == [cd] + rest;
      CheckDomainsExactly(domain, rest, seen + {Normal(cd.fqdn)});
      ApartCons(domain, cd, rest);
      assert forall i :: 0 < i < |cds| ==> cds[i] == rest[i - 1];
    }
  }

  /** Exactly the configurations Validate accepts, as far as routing goes. */
  lemma ValidateExactly(cfg: Config)
    ensures Validate(cfg).None? <==>
              && cfg.domain != "" && IsHostname(cfg.domain) && cfg.mode in {"hosted", "open"}
              && (forall i :: 0 <= i < |cfg.sites| ==> |cfg.sites[i]| == 64)
              && DomainsAreApart(cfg.domain, cfg.customDomains)
  {
    CheckDomainsExactly(cfg.domain, cfg.customDomains, {});
  }

  // ---- Applying a configuration ----

  function SiteOf(cd: CustomDomain): CustomSite {
    CustomSite(if cd.d != "" then L.Named else L.Root, cd.pubkey, cd.d)
  }

  function CustomMap(cds: seq<CustomDomain>): map<string, CustomSite> {
    if cds == [] then map[]
    else CustomMap(cds[..|cds| - 1])[Normal(cds[|cds| - 1].fqdn) := SiteOf(cds[|cds| - 1])]
  }

  function AllowSet(sites: seq<string>): set<string> { set s | s in sites }

  function Normals(cds: seq<CustomDomain>): seq<string> {
    seq(|cds|, i requires 0 <= i < |cds| => Normal(cds[i].fqdn))
  }

  lemma {:induction false} CustomMapKeys(cds: seq<CustomDomain>)
    ensures forall x :: x in CustomMap(cds) <==> x in Normals(cds)
  {
    if cds != [] {
      CustomMapKeys(cds[..|cds| - 1]);
      assert Normals(cds) == Normals(cds[..|cds| - 1]) + [Normal(cds[|cds| - 1].fqdn)];
    }
  }

  /** One entry per custom domain, each to its own site. */
  ghost predicate IsFaithful(cds: seq<CustomDomain>, m: map<string, CustomSite>) {
    && |m| == |cds|
    && forall cd :: cd in cds ==> Normal(cd.fqdn) in m && m[Normal(cd.fqdn)] == SiteOf(cd)
  }

  lemma NewName(init: seq<CustomDomain>, last: CustomDomain)
    requires forall i :: 0 <= i < |init| ==> Normal(init[i].fqdn) != Normal(last.fqdn)
    ensures Normal(last.fqdn) !in CustomMap(init)
  {}

  /** For an accepted configuration the map has one entry per custom domain, each to its own site. */
  lemma {:induction false} CustomMapIsFaithful(cds: seq<CustomDomain>)
    requires forall i, j :: 0 <= i < j < |cds| ==> Normal(cds[i].fqdn) != Normal(cds[j].fqdn)
    ensures IsFaithful(cds, CustomMap(cds))
  {
    if cds != [] {
      var init, last := cds[..|cds| - 1], cds[|cds| - 1];
      CustomMapIsFaithful(init);
      NewName(init, last);
    }
  }

  // ---- Routing ----

  datatype Routed = NoSite | Routed(labelText: string, siteType: L.SiteType, hexId: string, d: string)

  /** The state `apply` leaves. */
  datatype Applied = Applied(domain: string, mode: string, allow: set<string>, custom: map<string, CustomSite>)

  function AppliedOf(cfg: Config): Applied {
    Applied(cfg.domain, cfg.mode, AllowSet(cfg.sites), CustomMap(cfg.customDomains))
  }

  predicate IsApex(a: Applied, host: string) { HostName(host) == a.domain }

  function ParseHost(a: Applied, host: string, nip19: L.Nip19): Routed {
    var name, suffix := HostName(host), "." + a.domain;
    if name == a.domain then NoSite
    else if !HasSuffix(name, suffix) then
      if name in a.custom then Routed(name, a.custom[name].siteType, a.custom[name].pubkey, a.custom[name].d)
      else NoSite
    else
      var labelText := name[..|name| - |suffix|];
      if labelText == "" || |labelText| > L.LABEL_MAX_LEN then NoSite
      else
        match L.DecodeLabel(labelText, nip19)
        case NotASite => NoSite
        case Site(siteType, hexId, d) => Routed(labelText, siteType, hexId, d)
  }

  predicate Allowlisted(a: Applied, siteType: L.SiteType, pubkey: string) {
    a.mode == "open" || (siteType != L.Snapshot && pubkey in a.allow)
  }

  /** Whether Caddy is told to obtain a certificate for the host. */
  predicate TlsAsk(a: Applied, host: string, nip19: L.Nip19) {
    IsApex(a, host) ||
    (var r := ParseHost(a, host, nip19);
     r.Routed? && r.siteType != L.Snapshot && Allowlisted(a, r.siteType, r.hexId))
  }

  /** Whether a public request for the host gets as far as its path. */
  predicate PublicGate(a: Applied, host: string, nip19: L.Nip19) {
    IsApex(a, host) ||
    (var r := ParseHost(a, host, nip19);
     r.Routed? && Allowlisted(a, r.siteType, r.hexId))
  }

  // ---- Host names of plain names ----

  predicate IsHostChar(c: char) { IsBase36(c) || c == '-' || c == '.' }

  lemma {:induction false} HostnameChars(s: string)
    requires IsHostname(s)
    ensures s != "" && All(Lower(s), IsHostChar) && s[|s| - 1] != '.'
    decreases |s|
  {
    LabelsOf(s, true);
  }

  lemma {:induction false} LabelsOf(s: string, anyCase: bool)
    requires AreHostLabels(Split(s, '.'), anyCase)
    ensures s != "" && s[|s| - 1] != '.'
    ensures forall i :: 0 <= i < |s| ==> IsHostChar(LowerChar(s[i]))
    decreases |s|
  {
    var i, labels := IndexOf(s, '.'), Split(s, '.');
    if i < |s| {
      var head, rest := s[..i], s[i + 1..];
      var more := Split(rest, '.');
      assert labels == [head] + more && labels[1..] == more;
      assert forall k :: 0 <= k < |more| ==> labels[k + 1] == more[k];
      LabelsOf(rest, false);
      forall k | 0 <= k < |s|
        ensures IsHostChar(LowerChar(s[k]))
      {
        if k < i { assert s[k] == head[k]; } else if k > i { assert s[k] == rest[k - i - 1]; }
      }
    }
  }

  lemma HostCharsAreNoSpace(s: string)
    requires s != "" && All(Lower(s), IsHostChar)
    ensures TrimSpace(s) == s && ':' !in Lower(s)
  {
    assert IsHostChar(Lower(s)[0]) && IsHostChar(Lower(s)[|s| - 1]);
  }

  /** A name in any letter case, with or without a port, is the name in lower case. */
  lemma HostNameOf(name: string, port: string)
    requires name != "" && All(Lower(name), IsHostChar) && All(port, IsDigit)
    ensures HostName(name) == Lower(name)
    ensures HostName(name + ":" + port) == Lower(name)
  {
    HostCharsAreNoSpace(name);
    NoPort(Lower(name));
    var host := name + ":" + port;
    assert Lower(name)[0] == LowerChar(name[0]);
    assert !IsSpace(host[0]) && !IsSpace(host[|host| - 1]) by {
      if port != "" { assert host[|host| - 1] == port[|port| - 1]; } else { assert host[|host| - 1] == ':'; }
    }
    assert TrimSpace(host) == host;
    assert Lower(port) == port && Lower(host) == Lower(name) + [':'] + port;
    OnePort(Lower(name), port);
  }

  lemma {:induction false} TrimLeftPadding(pad: string, s: string)
    requires All(pad, IsSpace)
    ensures TrimLeft(pad + s) == TrimLeft(s)
  {
    if pad == "" {
      assert pad + s == s;
    } else {
      TrimLeftPadding(pad[1..], s);
      assert (pad + s)[1..] == pad[1..] + s;
    }
  }

  lemma {:induction false} TrimRightPadding(s: string, pad: string)
    requires All(pad, IsSpace)
    ensures TrimRight(s + pad) == TrimRight(s)
  {
    if pad == "" {
      assert s + pad == s;
    } else {
      var init := pad[..|pad| - 1];
      TrimRightPadding(s, init);
      assert (s + pad)[..|s + pad| - 1] == s + init;
    }
  }

  /** White space around the header changes nothing. */
  lemma PaddingIsTrimmed(left: string, host: string, right: string)
    requires All(left, IsSpace) && All(right, IsSpace)
    requires host != "" && !IsSpace(host[0])
    ensures HostName(left + host + right) == HostName(host)
  {
    TrimLeftPadding(left, host + right);
    TrimRightPadding(host, right);
    assert left + host + right == left + (host + right);
  }

  lemma NoPort(name: string)
    requires ':' !in name
    ensures StripPort(name) == name
  {
    AfterLastIsLastSegment(name, ':');
  }

  lemma OnePort(name: string, port: string)
    requires ':' !in port
    ensures AfterLast(name + [':'] + port, ':') == port
    ensures StripPort(name + [':'] + port) == name
  {
    AfterLastOf(name, ':', port);
  }

  // ---- Where hosts lead ----

  /**
   An attached domain, in any letter case and with or without a port, leads to its
   own site whatever labels the gateway domain would decode.
   */
  lemma AttachedDomainsRoute(cfg: Config, k: nat, name: string, port: string, host: string, nip19: L.Nip19)
    requires Validate(cfg).None? && k < |cfg.customDomains|
    requires Lower(name) == Normal(cfg.customDomains[k].fqdn) && All(port, IsDigit)
    requires host == name || host == name + ":" + port
    ensures var cd, site := cfg.customDomains[k], SiteOf(cfg.customDomains[k]);
            ParseHost(AppliedOf(cfg), host, nip19) == Routed(Normal(cd.fqdn), site.siteType, cd.pubkey, cd.d)
    ensures |AppliedOf(cfg).custom| == |cfg.customDomains|
  {
    ValidateExactly(cfg);
    CustomMapIsFaithful(cfg.customDomains);
    NormalIsHostName(cfg.customDomains[k].fqdn, name);
    HostNameOf(name, port);
  }

  lemma NormalIsHostName(fqdn: string, name: string)
    requires IsHostname(Normal(fqdn)) && Lower(name) == Normal(fqdn)
    ensures name != "" && All(Lower(name), IsHostChar) && !HasSuffix(Normal(fqdn), ".")
  {
    HostnameChars(Normal(fqdn));
    LowerTwice(TrimSuffix(fqdn, "."));
  }

  lemma LowerTwice(s: string)
    ensures Lower(Lower(s)) == Lower(s)
  {}

  lemma CustomNamesHaveNoFinalDot(domain: string, cds: seq<CustomDomain>, name: string)
    requires DomainsAreApart(domain, cds) && name in CustomMap(cds)
    ensures name != "" && name[|name| - 1] != '.'
  {
    CustomMapKeys(cds);
    var i :| 0 <= i < |cds| && Normals(cds)[i] == name;
    HostnameChars(name);
  }

  /** The name spelled with its final dot, as TLS and DNS allow, leads nowhere. */
  lemma FinalDotIsLost(cfg: Config, host: string, nip19: L.Nip19)
    requires Validate(cfg).None? && HasSuffix(HostName(host), ".")
    ensures ParseHost(AppliedOf(cfg), host, nip19) == NoSite
  {
    ValidateExactly(cfg);
    var name, suffix := HostName(host), "." + cfg.domain;
    HostnameChars(cfg.domain);
    SuffixLast(name, suffix);
    SuffixLast(name, ".");
    if name in CustomMap(cfg.customDomains) {
      CustomNamesHaveNoFinalDot(cfg.domain, cfg.customDomains, name);
    }
  }

  lemma SuffixLast(name: string, suffix: string)
    ensures HasSuffix(name, suffix) && suffix != "" ==> name != "" && name[|name| - 1] == suffix[|suffix| - 1]
  {}

  /** An attached domain is served exactly in open mode or when its key is listed: attaching it lists nothing. */
  lemma AttachedDomainServedExactly(cfg: Config, k: nat, nip19: L.Nip19)
    requires Validate(cfg).None? && k < |cfg.customDomains|
    ensures PublicGate(AppliedOf(cfg), Normal(cfg.customDomains[k].fqdn), nip19)
       <==> cfg.mode == "open" || cfg.customDomains[k].pubkey in cfg.sites
  {
    var name := Normal(cfg.customDomains[k].fqdn);
    ValidateExactly(cfg);
    assert FitsGateway(cfg.domain, cfg.customDomains[k]);
    LowerTwice(TrimSuffix(cfg.customDomains[k].fqdn, "."));
    AttachedDomainsRoute(cfg, k, name, "", name, nip19);
    GateOfRouted(AppliedOf(cfg), name, nip19);
  }

  lemma GateOfRouted(a: Applied, host: string, nip19: L.Nip19)
    requires ParseHost(a, host, nip19).Routed?
    ensures PublicGate(a, host, nip19)
       <==> Allowlisted(a, ParseHost(a, host, nip19).siteType, ParseHost(a, host, nip19).hexId)
  {}

  /** A certificate is never obtained for a host that is then refused; the converse fails for snapshots in open mode, and only there. */
  lemma CertificatesAreForServedHosts(a: Applied, host: string, nip19: L.Nip19)
    ensures TlsAsk(a, host, nip19) ==> PublicGate(a, host, nip19)
    ensures PublicGate(a, host, nip19) && !TlsAsk(a, host, nip19) <==>
              && !IsApex(a, host) && a.mode == "open"
              && ParseHost(a, host, nip19).Routed? && ParseHost(a, host, nip19).siteType == L.Snapshot
  {}

  /** A label below the gateway domain leads where the label decodes to, when the domain is in lower case. */
  lemma LabelsRoute(a: Applied, labelText: string, port: string, host: string, nip19: L.Nip19)
    requires IsHostname(a.domain) && Lower(a.domain) == a.domain
    requires 1 <= |labelText| <= L.LABEL_MAX_LEN && All(labelText, IsHostChar) && All(port, IsDigit)
    requires host == labelText + "." + a.domain || host == labelText + "." + a.domain + ":" + port
    ensures ParseHost(a, host, nip19)
         == match L.DecodeLabel(labelText, nip19)
            case NotASite => NoSite
            case Site(siteType, hexId, d) => Routed(labelText, siteType, hexId, d)
  {
    var name, suffix := labelText + "." + a.domain, "." + a.domain;
    LabelHost(labelText, a.domain);
    HostNamesOf(name, port, host);
    assert name == labelText + suffix;
    LabelNameRoutes(a, labelText, host, nip19);
  }

  lemma HostNamesOf(name: string, port: string, host: string)
    requires name != "" && Lower(name) == name && All(name, IsHostChar) && All(port, IsDigit)
    requires host == name || host == name + ":" + port
    ensures HostName(host) == name
  {
    HostNameOf(name, port);
  }

  lemma LabelNameRoutes(a: Applied, labelText: string, host: string, nip19: L.Nip19)
    requires 1 <= |labelText| <= L.LABEL_MAX_LEN && HostName(host) == labelText + ("." + a.domain)
    ensures ParseHost(a, host, nip19)
         == match L.DecodeLabel(labelText, nip19)
            case NotASite => NoSite
            case Site(siteType, hexId, d) => Routed(labelText, siteType, hexId, d)
  {}

  lemma LabelHost(labelText: string, domain: string)
    requires IsHostname(domain) && Lower(domain) == domain && All(labelText, IsHostChar)
    ensures var name := labelText + "." + domain; Lower(name) == name && All(name, IsHostChar)
  {
    HostnameChars(domain);
    var name := labelText + "." + domain;
    forall i | 0 <= i < |name|
      ensures LowerChar(name[i]) == name[i] && IsHostChar(name[i])
    {
    }
  }

  lemma HostNameIsLower(host: string)
    ensures Lower(HostName(host)) == HostName(host)
  {}

  /** A gateway domain configured with a capital letter, which Validate allows in its first label, serves no label and has no apex. */
  lemma CapitalDomainRoutesNoLabel(cfg: Config, host: string, nip19: L.Nip19)
    requires Lower(cfg.domain) != cfg.domain
    ensures !IsApex(AppliedOf(cfg), host)
    ensures ParseHost(AppliedOf(cfg), host, nip19).Routed? <==> HostName(host) in CustomMap(cfg.customDomains)
  {
    HostNameIsLower(host);
    LowerSuffix(HostName(host), cfg.domain);
  }

  /**
   For an accepted configuration, a label that decodes is routed to what it decodes to if
   and only if the gateway domain is in lower case.
   */
  lemma LabelsRouteExactly(cfg: Config, labelText: string, nip19: L.Nip19)
    requires Validate(cfg).None? && L.DecodeLabel(labelText, nip19).Site?
    requires 1 <= |labelText| <= L.LABEL_MAX_LEN && All(labelText, IsHostChar)
    ensures var site := L.DecodeLabel(labelText, nip19);
            ParseHost(AppliedOf(cfg), labelText + "." + cfg.domain, nip19)
            == Routed(labelText, site.siteType, site.hexId, site.d)
            <==> Lower(cfg.domain) == cfg.domain
  {
    ValidateExactly(cfg);
    if Lower(cfg.domain) == cfg.domain {
      LabelsRoute(AppliedOf(cfg), labelText, "", labelText + "." + cfg.domain, nip19);
    } else {
      CapitalLabelIsLost(cfg, labelText, nip19);
    }
  }

  /** Under such a domain the host is at most a custom one, and never the label's site. */
  lemma CapitalLabelIsLost(cfg: Config, labelText: string, nip19: L.Nip19)
    requires IsHostname(cfg.domain) && Lower(cfg.domain) != cfg.domain && All(labelText, IsHostChar)
    ensures var r := ParseHost(AppliedOf(cfg), labelText + "." + cfg.domain, nip19);
            r == NoSite || (r.Routed? && |r.labelText| > |labelText|)
  {
    var host := labelText + "." + cfg.domain;
    CapitalDomainRoutesNoLabel(cfg, host, nip19);
    HostNameIsLower(host);
    LowerSuffix(HostName(host), cfg.domain);
    LabelHostChars(labelText, cfg.domain);
    HostNameOf(host, "");
  }

  lemma LabelHostChars(labelText: string, domain: string)
    requires IsHostname(domain) && All(labelText, IsHostChar)
    ensures All(Lower(labelText + "." + domain), IsHostChar)
  {
    HostnameChars(domain);
    var host := labelText + "." + domain;
    forall i | 0 <= i < |host|
      ensures IsHostChar(Lower(host)[i])
    {
      if i < |labelText| {
        assert host[i] == labelText[i];
      } else if i > |labelText| {
        assert Lower(host)[i] == Lower(domain)[i - |labelText| - 1];
      }
    }
  }

  lemma TwoLabelHostname(a: string, b: string)
    requires '.' !in a && '.' !in b
    ensures IsHostname(a + "." + b) <==> IsHostLabel(a, true) && IsHostLabel(b, false)
  {
    SplitHead(a, '.', b);
    SplitNone(b, '.');
    var labels := [a, b];
    assert a + ['.'] + b == a + "." + b && Split(a + "." + b, '.') == labels;
    assert labels[0] == a && labels[1] == b;
  }

  lemma TwoLabelDomain(a: string, b: string)
    requires '.' !in a && '.' !in b
    ensures Validate(Config(a + "." + b, "open", [], [])).None? <==> IsHostLabel(a, true) && IsHostLabel(b, false)
  {
    TwoLabelHostname(a, b);
    ValidateExactly(Config(a + "." + b, "open", [], []));
  }

  lemma LowerFirst(s: string, rest: string)
    requires s != "" && LowerChar(s[0]) != s[0]
    ensures Lower(s + rest) != s + rest
  {
    assert Lower(s + rest)[0] == LowerChar(s[0]);
  }

  lemma ExampleLabels()
    ensures IsHostLabel("Example", true) && IsHostLabel("com", false) && !IsHostLabel("Com", false)
    ensures '.' !in "Example" && '.' !in "com" && '.' !in "example" && '.' !in "Com"
  {
    assert "Com"[0] == 'C' && !IsAlnum('C', false);
  }

  /** Validate accepts a capital in the first label of the gateway domain, and only there. */
  lemma CapitalDomainIsAccepted()
    ensures Validate(Config("Example" + "." + "com", "open", [], [])).None?
    ensures Lower("Example" + "." + "com") != "Example" + "." + "com"
    ensures Validate(Config("example" + "." + "Com", "open", [], [])).Some?
  {
    ExampleLabels();
    TwoLabelDomain("Example", "com");
    TwoLabelDomain("example", "Com");
    assert "Example" + "." + "com" == "Example" + ("." + "com");
    LowerFirst("Example", "." + "com");
  }

  lemma LowerLabel(s: string)
    requires IsHostLabel(s, true)
    ensures IsHostLabel(Lower(s), true) && '.' !in Lower(s)
  {
    forall i | 0 <= i < |s|
      ensures IsAlnum(s[i], true) ==> IsAlnum(Lower(s)[i], true)
      ensures Lower(s)[i] == '-' <==> s[i] == '-'
      ensures Lower(s)[i] != '.'
    {}
  }

  lemma LabelsCons(head: string, more: seq<string>, anyCase: bool)
    requires more != []
    ensures AreHostLabels([head] + more, anyCase) <==> IsHostLabel(head, anyCase) && AreHostLabels(more, false)
  {
    var labels := [head] + more;
    assert labels[0] == head && forall k :: 0 <= k < |more| ==> labels[k + 1] == more[k];
    assert forall k :: 1 <= k < |labels| ==> labels[k] == more[k - 1];
  }

  lemma LowerConcat(a: string, b: string)
    ensures Lower(a + b) == Lower(a) + Lower(b)
  {}

  /** A name with a dot is its first label and the rest. */
  lemma FirstLabel(s: string, anyCase: bool) returns (head: string, rest: string)
    requires AreHostLabels(Split(s, '.'), anyCase) && '.' in s
    ensures s == head + ['.'] + rest && IsHostLabel(head, anyCase) && AreHostLabels(Split(rest, '.'), false)
  {
    var i := IndexOf(s, '.');
    assert i < |s| by { assert s[..|s|] == s; }
    head, rest := s[..i], s[i + 1..];
    SplitJoin(rest, '.');
    LabelsCons(head, Split(rest, '.'), anyCase);
  }

  lemma OnlyLabel(s: string, anyCase: bool)
    requires '.' !in s
    ensures AreHostLabels(Split(s, '.'), anyCase) <==> IsHostLabel(s, anyCase)
  {
    SplitNone(s, '.');
    assert [s][0] == s;
  }

  lemma {:induction false} LaterLabelsAreLower(s: string)
    requires AreHostLabels(Split(s, '.'), false)
    ensures Lower(s) == s
    decreases |s|
  {
    if '.' in s {
      var head, rest := FirstLabel(s, false);
      LaterLabelsAreLower(rest);
      LaterLabelIsLower(head);
      LowerConcat(head + ['.'], rest);
      LowerConcat(head, ['.']);
      assert Lower(['.']) == ['.'];
    } else {
      OnlyLabel(s, false);
      LaterLabelIsLower(s);
    }
  }

  lemma LaterLabelIsLower(s: string)
    requires IsHostLabel(s, false)
    ensures Lower(s) == s
  {}

  /** The name in lower case is a host name too. */
  lemma LowerHostname(s: string)
    requires IsHostname(s)
    ensures IsHostname(Lower(s))
  {
    if '.' in s {
      var head, rest := FirstLabel(s, true);
      DottedLower(head, rest);
    } else {
      OnlyLabel(s, true);
      LowerLabel(s);
      OnlyLabel(Lower(s), true);
    }
  }

  lemma DottedLower(head: string, rest: string)
    requires IsHostLabel(head, true) && AreHostLabels(Split(rest, '.'), false)
    ensures IsHostname(Lower(head + ['.'] + rest))
  {
    LowerLabel(head);
    LaterLabelsAreLower(rest);
    LowerConcat(head + ['.'], rest);
    LowerConcat(head, ['.']);
    SplitHead(Lower(head), '.', rest);
    LabelsCons(Lower(head), Split(rest, '.'), true);
    assert Lower(['.']) == ['.'];
  }

  /** Whether a custom name meets or contains the gateway's name, as requests spell it. */
  predicate Overlaps(fqdn: string, domain: string) {
    fqdn == domain || HasSuffix(fqdn, "." + domain) || HasSuffix(domain, "." + fqdn)
  }

  ghost predicate AcceptsOverlap(domain: string) {
    exists cfg: Config, k :: cfg.domain == domain && Validate(cfg).None? && 0 <= k < |cfg.customDomains|
      && Overlaps(Normal(cfg.customDomains[k].fqdn), Lower(domain))
  }

  /** A configuration that attaches the gateway's own name. */
  function TakesGatewayName(domain: string, pubkey: string): Config {
    Config(domain, "open", [], [CustomDomain(Lower(domain), pubkey, "")])
  }

  lemma NormalOfLower(domain: string)
    requires IsHostname(domain)
    ensures Normal(Lower(domain)) == Lower(domain) && Lower(domain) != ""
  {
    HostnameChars(domain);
    LowerTwice(domain);
    EndOfLower(domain);
  }

  lemma EndOfLower(s: string)
    requires s != "" && s[|s| - 1] != '.'
    ensures !HasSuffix(Lower(s), ".")
  {
    assert Lower(s)[|s| - 1] == LowerChar(s[|s| - 1]) != '.';
    SuffixLast(Lower(s), ".");
  }

  /** Under a domain with a capital, its own name in lower case can be attached, and is served as that site. */
  lemma GatewayNameIsTaken(domain: string, pubkey: string, nip19: L.Nip19)
    requires IsHostname(domain) && Lower(domain) != domain && |pubkey| == 64
    ensures var cfg := TakesGatewayName(domain, pubkey);
            && Validate(cfg).None?
            && ParseHost(AppliedOf(cfg), domain, nip19) == Routed(Lower(domain), L.Root, pubkey, "")
  {
    var cfg, cd := TakesGatewayName(domain, pubkey), CustomDomain(Lower(domain), pubkey, "");
    NormalOfLower(domain);
    LowerHostname(domain);
    assert cfg.customDomains[0] == cd && FitsGateway(domain, cd);
    ValidateExactly(cfg);
    AttachedDomainsRoute(cfg, 0, domain, "", domain, nip19);
  }

  /**
   Validate's overlap checks compare a name in lower case with the domain as written.
   They keep every custom name apart from the gateway's exactly when the domain is in
   lower case.
   */
  lemma OverlapIsRefusedExactly(domain: string)
    requires IsHostname(domain)
    ensures !AcceptsOverlap(domain) <==> Lower(domain) == domain
  {
    if Lower(domain) == domain {
      forall cfg: Config, k | cfg.domain == domain && Validate(cfg).None? && 0 <= k < |cfg.customDomains|
        ensures !Overlaps(Normal(cfg.customDomains[k].fqdn), Lower(domain))
      {
        ValidateExactly(cfg);
        assert FitsGateway(domain, cfg.customDomains[k]);
      }
    } else {
      var cfg := TakesGatewayName(domain, Repeat('0', 64));
      GatewayNameIsTaken(domain, Repeat('0', 64), L.Nip19(_ => None, _ => None));
      NormalOfLower(domain);
      assert cfg.domain == domain && cfg.customDomains[0].fqdn == Lower(domain);
      assert Overlaps(Normal(cfg.customDomains[0].fqdn), Lower(domain));
    }
  }

  lemma LowerSuffix(name: string, domain: string)
    ensures Lower(name) == name && HasSuffix(name, "." + domain) ==> Lower(domain) == domain
  {
    if Lower(name) == name && HasSuffix(name, "." + domain) {
      var k := |name| - |domain|;
      assert domain == ("." + domain)[1..] == name[k - 1..][1..] == name[k..];
    }
  }

  /** The server's routing state. */
  class Server {
    var domain: string
    var mode: string
    var allow: set<string>
    var custom: map<string, CustomSite>

    function View(): Applied
      reads this
    {
      Applied(domain, mode, allow, custom)
    }

    constructor (cfg: Config)
      ensures View() == AppliedOf(cfg)
    {
      domain, mode, allow, custom := "", "", {}, map[];
      new;
      Apply(cfg);
    }

    method Apply(cfg: Config)
      modifies this
      ensures View() == AppliedOf(cfg)
    {
      domain, mode := cfg.domain, cfg.mode;
      var listed: set<string> := {};
      for i := 0 to |cfg.sites|
        invariant listed == AllowSet(cfg.sites[..i])
      {
        assert cfg.sites[..i + 1] == cfg.sites[..i] + [cfg.sites[i]];
        listed := listed + {cfg.sites[i]};
      }
      assert cfg.sites[..|cfg.sites|] == cfg.sites;
      var sites: map<string, CustomSite> := map[];
      for i := 0 to |cfg.customDomains|
        invariant sites == CustomMap(cfg.customDomains[..i])
      {
        assert cfg.customDomains[..i + 1][..i] == cfg.customDomains[..i];
        var cd := cfg.customDomains[i];
        var siteType := L.Root;
        if cd.d != "" { siteType := L.Named; }
        sites := sites[Lower(TrimSuffix(cd.fqdn, ".")) := CustomSite(siteType, cd.pubkey, cd.d)];
      }
      assert cfg.customDomains[..|cfg.customDomains|] == cfg.customDomains;
      allow, custom := listed, sites;
    }
  }

  /** Validate's loop over custom domains. */
  method CheckDomainsLoop(domain: string, cds: seq<CustomDomain>) returns (e: Option<ConfigError>)
    ensures e == CheckDomains(domain, cds, {})
    ensures e.None? <==> DomainsAreApart(domain, cds)
  {
    CheckDomainsExactly(domain, cds, {});
    var seen: set<string> := {};
    for i := 0 to |cds|
      invariant CheckDomains(domain, cds[i..], seen) == CheckDomains(domain, cds, {})
    {
      var cd := cds[i];
      if cd.fqdn == "" { return Some(NoFqdn); }
      var fqdn := Lower(TrimSuffix(cd.fqdn, "."));
      if !IsHostname(fqdn) { return Some(BadFqdn); }
      if fqdn == domain || HasSuffix(fqdn, "." + domain) { return Some(OverlapsGateway); }
      if HasSuffix(domain, "." + fqdn) { return Some(ParentOfGateway); }
      if fqdn in seen { return Some(DuplicateFqdn); }
      seen := seen + {fqdn};
      if |cd.pubkey| != 64 { return Some(BadKey); }
    }
    return None;
  }
}
