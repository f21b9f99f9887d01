/** Resolution of npack releases: from relays, and from the local catalogue. */
module Npk {
  import opened Outcome
  import opened Text
  import opened Nostr
  import opened Arrivals

  const KIND_RELEASE := 9900
  const KIND_REVOCATION := 9901

  datatype Release = Release(publisher: string, name: string, version: string, sha256: string, eventId: string)

  datatype Catalogue = Catalogue(releases: seq<Event>, revocations: seq<Event>)

  predicate IsSHA256(s: string) { |s| == 64 && All(s, IsHex) }

  /** The first name tag that has a value. */
  function ReleaseName(tags: seq<Tag>): string {
    if tags == [] then ""
    else if |tags[0]| >= 2 && tags[0][0] == "name" then tags[0][1]
    else ReleaseName(tags[1..])
  }

  /** One turn of parseRelease's loop. */
  function ReadTag(rel: Release, t: Tag): Release {
    if |t| < 2 then rel
    else if t[0] == "name" then rel.(name := t[1])
    else if t[0] == "version" then rel.(version := t[1])
    else if t[0] == "x" && IsSHA256(t[1]) then rel.(sha256 := Lower(t[1]))
    else rel
  }

  function ReadTags(rel: Release, tags: seq<Tag>): Release {
    if tags == [] then rel else ReadTag(ReadTags(rel, tags[..|tags| - 1]), tags[|tags| - 1])
  }

  function Blank(ev: Event): Release { Release(ev.pubkey, "", "", "", ev.id) }

  function ParseRelease(ev: Event): Option<Release> {
    if ev.kind != KIND_RELEASE then None
    else
      var rel := ReadTags(Blank(ev), ev.tags);
      if rel.name == "" || rel.version == "" || !IsSHA256(rel.sha256) then None else Some(rel)
  }

  /** The value of the last tag that satisfies `p`. */
  function LastValue(tags: seq<Tag>, p: Tag -> bool): string {
    if tags == [] then ""
    else
      var t := tags[|tags| - 1];
      if p(t) && |t| > 1 then t[1] else LastValue(tags[..|tags| - 1], p)
  }

  function IsDigestTag(): Tag -> bool { t => |t| > 1 && t[0] == "x" && IsSHA256(t[1]) }

  /** parseRelease field by field: the last name, version and well-formed digest each win. */
  lemma {:induction false} ReadTagsAre(ev: Event, tags: seq<Tag>)
    ensures ReadTags(Blank(ev), tags)
         == Release(ev.pubkey, LastValue(tags, Valued("name")), LastValue(tags, Valued("version")),
                    Lower(LastValue(tags, IsDigestTag())), ev.id)
  {
    if tags != [] { ReadTagsAre(ev, tags[..|tags| - 1]); }
  }

  lemma {:induction false} LastDigest(tags: seq<Tag>)
    ensures LastValue(tags, IsDigestTag()) == "" || IsSHA256(LastValue(tags, IsDigestTag()))
  {
    if tags != [] { LastDigest(tags[..|tags| - 1]); }
  }

  predicate IsLowerSHA256(s: string) { |s| == 64 && All(s, IsLowerHex) }

  /** A release is parsed exactly from a kind-9900 event with a name, a version and a digest. */
  lemma ParseReleaseMeans(ev: Event)
    ensures ParseRelease(ev).Some? <==>
              && ev.kind == KIND_RELEASE
              && LastValue(ev.tags, Valued("name")) != "" && LastValue(ev.tags, Valued("version")) != ""
              && LastValue(ev.tags, IsDigestTag()) != ""
    ensures ParseRelease(ev).Some? ==>
              var rel := ParseRelease(ev).value;
              && rel.publisher == ev.pubkey && rel.eventId == ev.id
              && rel.name == LastValue(ev.tags, Valued("name")) && rel.version == LastValue(ev.tags, Valued("version"))
              && IsLowerSHA256(rel.sha256) && rel.sha256 == Lower(LastValue(ev.tags, IsDigestTag()))
  {
    ReadTagsAre(ev, ev.tags);
    LastDigest(ev.tags);
    var x := LastValue(ev.tags, IsDigestTag());
    assert IsSHA256(x) ==> IsLowerSHA256(Lower(x));
  }

  // ---- Selection ----

  function Keep(hits: Hits, p: Event -> bool): Hits {
    seq(|hits|, i requires 0 <= i < |hits| => if hits[i].Some? && p(hits[i].value) then hits[i] else None)
  }

  function Somes(events: seq<Event>): Hits { seq(|events|, i requires 0 <= i < |events| => Some(events[i])) }

  function HasName(name: string): Event -> bool { (ev: Event) => ReleaseName(ev.tags) == name }

  /** What either resolver looks for. */
  function IsReleaseOf(publisher: string, name: string): Event -> bool {
    (ev: Event) => ev.kind == KIND_RELEASE && ev.pubkey == publisher && ReleaseName(ev.tags) == name
  }

  predicate Revokes(rev: Event, id: string) {
    exists i :: 0 <= i < |rev.tags| && |rev.tags[i]| >= 2 && rev.tags[i][0] == "e" && rev.tags[i][1] == id
  }

  predicate IsRevoked(hits: Hits, id: string) {
    exists i :: 0 <= i < |hits| && hits[i].Some? && Revokes(hits[i].value, id)
  }

  function NewestRelease(relays: seq<string>, name: string, hits: Hits, revocations: Hits): Option<Release> {
    if relays == [] then None
    else
      var best := Newest(Keep(hits, HasName(name)));
      if best.None? then None
      else
        var release := ParseRelease(best.value);
        if release.None? || IsRevoked(revocations, best.value.id) then None else release
  }

  predicate RevokedInCatalogue(c: Catalogue, publisher: string, id: string) {
    exists i :: 0 <= i < |c.revocations| && c.revocations[i].kind == KIND_REVOCATION
                && c.revocations[i].pubkey == publisher && Revokes(c.revocations[i], id)
  }

  function CatalogueNewest(c: Catalogue, publisher: string, name: string): Option<Release> {
    var best := Newest(Keep(Somes(c.releases), IsReleaseOf(publisher, name)));
    if best.None? then None
    else
      var release := ParseRelease(best.value);
      if release.None? || RevokedInCatalogue(c, publisher, best.value.id) then None else release
  }

  // ---- The two resolvers agree ----

  function ByFilter(f: Filter): Event -> bool { (ev: Event) => Matches(f, ev) }

  function ReleaseFilter(publisher: string): Filter { Filter([], [KIND_RELEASE], [publisher], []) }
  function RevocationFilter(publisher: string): Filter { Filter([], [KIND_REVOCATION], [publisher], []) }

  /** What a relay holding `events` delivers for a filter. */
  function Deliveries(events: seq<Event>, f: Filter): Hits { Somes(Select(events, ByFilter(f))) }

  lemma KeepSnoc(hits: Hits, hit: Option<Event>, p: Event -> bool)
    ensures Newest(Keep(hits + [hit], p))
         == (var best := Newest(Keep(hits, p));
             if hit.None? || !p(hit.value) || (best.Some? && hit.value.createdAt <= best.value.createdAt) then best else hit)
  {
    var kept := Keep(hits + [hit], p);
    assert kept[..|kept| - 1] == Keep(hits, p);
  }

  lemma {:induction false} NewestOfDeliveries(events: seq<Event>, publisher: string, name: string)
    ensures Newest(Keep(Deliveries(events, ReleaseFilter(publisher)), HasName(name)))
         == Newest(Keep(Somes(events), IsReleaseOf(publisher, name)))
  {
    if events != [] {
      var init, ev := events[..|events| - 1], events[|events| - 1];
      NewestOfDeliveries(init, publisher, name);
      assert Somes(events) == Somes(init) + [Some(ev)];
      KeepSnoc(Somes(init), Some(ev), IsReleaseOf(publisher, name));
      var delivered := Deliveries(init, ReleaseFilter(publisher));
      if Matches(ReleaseFilter(publisher), ev) {
        assert Deliveries(events, ReleaseFilter(publisher)) == delivered + [Some(ev)];
        KeepSnoc(delivered, Some(ev), HasName(name));
      } else {
        assert Deliveries(events, ReleaseFilter(publisher)) == delivered;
      }
    }
  }

  lemma RevocationsAgree(c: Catalogue, publisher: string, id: string)
    ensures IsRevoked(Deliveries(c.revocations, RevocationFilter(publisher)), id)
       <==> RevokedInCatalogue(c, publisher, id)
  {
    var f := RevocationFilter(publisher);
    var picked := Select(c.revocations, ByFilter(f));
    SelectPicks(c.revocations, ByFilter(f));
    if IsRevoked(Somes(picked), id) {
      var i :| 0 <= i < |picked| && Revokes(picked[i], id);
      assert picked[i] in picked;
      var j :| 0 <= j < |c.revocations| && c.revocations[j] == picked[i];
    }
    if RevokedInCatalogue(c, publisher, id) {
      var j :| 0 <= j < |c.revocations| && c.revocations[j].kind == KIND_REVOCATION
               && c.revocations[j].pubkey == publisher && Revokes(c.revocations[j], id);
      assert c.revocations[j] in picked;
      var i :| 0 <= i < |picked| && picked[i] == c.revocations[j];
      assert Somes(picked)[i].Some? && Revokes(Somes(picked)[i].value, id);
    }
  }

  /** On the same events in the same order, the catalogue and the relays resolve to the same release. */
  lemma ResolversAgree(c: Catalogue, relays: seq<string>, publisher: string, name: string)
    requires relays != []
    ensures CatalogueNewest(c, publisher, name)
         == NewestRelease(relays, name, Deliveries(c.releases, ReleaseFilter(publisher)),
                          Deliveries(c.revocations, RevocationFilter(publisher)))
  {
    NewestOfDeliveries(c.releases, publisher, name);
    var best := Newest(Keep(Somes(c.releases), IsReleaseOf(publisher, name)));
    if best.Some? { RevocationsAgree(c, publisher, best.value.id); }
  }

  /** What a release promises, and when there is one: the newest matching event must be well-formed and unrevoked. */
  ghost predicate IsNewestMatch(c: Catalogue, publisher: string, name: string, ev: Event) {
    && ev in c.releases && IsReleaseOf(publisher, name)(ev)
    && forall other :: other in c.releases && IsReleaseOf(publisher, name)(other) ==> other.createdAt <= ev.createdAt
  }

  lemma CatalogueReleaseIsSound(c: Catalogue, publisher: string, name: string)
    requires CatalogueNewest(c, publisher, name).Some?
    ensures exists ev :: IsNewestMatch(c, publisher, name, ev)
              && ParseRelease(ev) == CatalogueNewest(c, publisher, name)
              && !RevokedInCatalogue(c, publisher, ev.id)
  {
    var _ := BestInCatalogue(c, publisher, name);
  }

  lemma BestInCatalogue(c: Catalogue, publisher: string, name: string) returns (ev: Event)
    requires Newest(Keep(Somes(c.releases), IsReleaseOf(publisher, name))).Some?
    ensures Newest(Keep(Somes(c.releases), IsReleaseOf(publisher, name))) == Some(ev)
    ensures IsNewestMatch(c, publisher, name, ev)
  {
    var kept := Keep(Somes(c.releases), IsReleaseOf(publisher, name));
    NewestIsMaximal(kept);
    ev := Newest(kept).value;
    var i :| 0 <= i < |kept| && kept[i] == Some(ev);
    forall other | other in c.releases && IsReleaseOf(publisher, name)(other)
      ensures other.createdAt <= ev.createdAt
    {
      var j :| 0 <= j < |c.releases| && c.releases[j] == other;
      assert kept[j] == Some(other) && kept[j] in kept;
    }
  }

  /** The first listed among the newest matches. */
  ghost predicate IsFirstNewestMatch(c: Catalogue, publisher: string, name: string, i: int) {
    && 0 <= i < |c.releases| && IsNewestMatch(c, publisher, name, c.releases[i])
    && forall j :: 0 <= j < i && IsReleaseOf(publisher, name)(c.releases[j]) ==>
         c.releases[j].createdAt < c.releases[i].createdAt
  }

  lemma FirstNewestMatchExactly(c: Catalogue, publisher: string, name: string, i: int)
    ensures IsFirstNewestMatch(c, publisher, name, i)
       <==> IsFirstNewest(Keep(Somes(c.releases), IsReleaseOf(publisher, name)), i)
  {
    var kept := Keep(Somes(c.releases), IsReleaseOf(publisher, name));
    if IsFirstNewest(kept, i) {
      forall other | other in c.releases && IsReleaseOf(publisher, name)(other)
        ensures other.createdAt <= c.releases[i].createdAt
      {
        var j :| 0 <= j < |c.releases| && c.releases[j] == other;
        assert kept[j] == Some(other);
      }
      forall j | 0 <= j < i && IsReleaseOf(publisher, name)(c.releases[j])
        ensures c.releases[j].createdAt < c.releases[i].createdAt
      {
        assert kept[j] == Some(c.releases[j]);
      }
    }
  }

  /** The first of the newest matches decides alone: unparsed or revoked, it hides every other, of whatever age. */
  lemma FirstNewestDecides(c: Catalogue, publisher: string, name: string, i: int)
    requires IsFirstNewestMatch(c, publisher, name, i)
    ensures CatalogueNewest(c, publisher, name)
         == if RevokedInCatalogue(c, publisher, c.releases[i].id) then None else ParseRelease(c.releases[i])
  {
    FirstNewestMatchExactly(c, publisher, name, i);
    NewestIsFirstNewest(Keep(Somes(c.releases), IsReleaseOf(publisher, name)));
  }

  predicate IsUsable(c: Catalogue, publisher: string, name: string, ev: Event) {
    IsReleaseOf(publisher, name)(ev) && ParseRelease(ev).Some? && !RevokedInCatalogue(c, publisher, ev.id)
  }

  ghost predicate IsNewestUsable(c: Catalogue, publisher: string, name: string, ev: Event) {
    && ev in c.releases && IsUsable(c, publisher, name, ev)
    && forall other :: other in c.releases && IsUsable(c, publisher, name, other) ==> other.createdAt <= ev.createdAt
  }

  /**
   "The newest valid release", exactly. When some match is usable, a newest usable one is
   returned if and only if the first of the newest matches is itself usable; and
   otherwise none is.
   */
  lemma NewestUsableExactly(c: Catalogue, publisher: string, name: string)
    requires exists ev :: ev in c.releases && IsUsable(c, publisher, name, ev)
    ensures (exists ev :: IsNewestUsable(c, publisher, name, ev) && CatalogueNewest(c, publisher, name) == ParseRelease(ev))
       <==> exists i :: IsFirstNewestMatch(c, publisher, name, i) && IsUsable(c, publisher, name, c.releases[i])
    ensures CatalogueNewest(c, publisher, name) == None
       <==> exists i :: IsFirstNewestMatch(c, publisher, name, i) && !IsUsable(c, publisher, name, c.releases[i])
  {
    var i := FirstNewestMatch(c, publisher, name);
    FirstNewestDecides(c, publisher, name, i);
  }

  lemma FirstNewestMatch(c: Catalogue, publisher: string, name: string) returns (i: nat)
    requires exists ev :: ev in c.releases && IsReleaseOf(publisher, name)(ev)
    ensures IsFirstNewestMatch(c, publisher, name, i)
    ensures forall k :: IsFirstNewestMatch(c, publisher, name, k) ==> k == i
  {
    var kept := Keep(Somes(c.releases), IsReleaseOf(publisher, name));
    var ev :| ev in c.releases && IsReleaseOf(publisher, name)(ev);
    var j :| 0 <= j < |c.releases| && c.releases[j] == ev;
    assert kept[j] == Some(ev);
    NewestIsFirstNewest(kept);
    i :| IsFirstNewest(kept, i);
    FirstNewestMatchExactly(c, publisher, name, i);
  }

  /** The same of the relays' arrivals: the first of the newest that bear the name decides. */
  lemma FirstNewestArrivalDecides(relays: seq<string>, name: string, hits: Hits, revocations: Hits, i: int)
    requires relays != [] && IsFirstNewest(Keep(hits, HasName(name)), i)
    ensures NewestRelease(relays, name, hits, revocations)
         == if IsRevoked(revocations, hits[i].value.id) then None else ParseRelease(hits[i].value)
  {
    NewestIsFirstNewest(Keep(hits, HasName(name)));
  }

  function Usable(name: string, revocations: Hits): Event -> bool {
    (ev: Event) => ReleaseName(ev.tags) == name && ParseRelease(ev).Some? && !IsRevoked(revocations, ev.id)
  }

  /** And a newest usable arrival is returned exactly when that one is usable. */
  lemma NewestUsableArrivalExactly(relays: seq<string>, name: string, hits: Hits, revocations: Hits)
    requires relays != [] && exists h :: h in hits && h.Some? && Usable(name, revocations)(h.value)
    ensures var r, best := NewestRelease(relays, name, hits, revocations), Newest(Keep(hits, HasName(name)));
            && best.Some?
            && ((exists ev :: IsNewestValid(hits, Usable(name, revocations), ev) && r == ParseRelease(ev))
                <==> Usable(name, revocations)(best.value))
            && (r == None <==> !Usable(name, revocations)(best.value))
  {
    var kept := Keep(hits, HasName(name));
    KeptHave(hits, name);
    NewestIsMaximal(kept);
    if Usable(name, revocations)(Newest(kept).value) {
      assert IsNewestValid(hits, Usable(name, revocations), Newest(kept).value);
    }
  }

  lemma KeptHave(hits: Hits, name: string)
    ensures forall ev :: Some(ev) in Keep(hits, HasName(name)) <==> Some(ev) in hits && ReleaseName(ev.tags) == name
  {
    var kept := Keep(hits, HasName(name));
    forall ev
      ensures Some(ev) in kept <==> Some(ev) in hits && ReleaseName(ev.tags) == name
    {
      if Some(ev) in hits && ReleaseName(ev.tags) == name {
        var i :| 0 <= i < |hits| && hits[i] == Some(ev);
        assert kept[i] == Some(ev);
      }
    }
  }

  function Plain(id: string, publisher: string, at: int, digest: string): Event {
    Event(id, publisher, at, KIND_RELEASE, [["name", "a"], ["version", "1"], ["x", digest]], "", "")
  }

  /** The same without a version. */
  function Unversioned(id: string, publisher: string, at: int): Event {
    Event(id, publisher, at, KIND_RELEASE, [["name", "a"]], "", "")
  }

  lemma PlainParses(id: string, publisher: string, at: int, digest: string)
    requires IsLowerSHA256(digest)
    ensures var ev := Plain(id, publisher, at, digest);
            ParseRelease(ev) == Some(Release(publisher, "a", "1", digest, id)) && ReleaseName(ev.tags) == "a"
  {
    var ev := Plain(id, publisher, at, digest);
    var b := Blank(ev);
    assert ReadTags(b, ev.tags[..2][..1]) == b.(name := "a");
    assert ReadTags(b, ev.tags) == b.(name := "a", version := "1", sha256 := digest);
  }

  lemma UnversionedDoesNotParse(id: string, publisher: string, at: int)
    ensures ParseRelease(Unversioned(id, publisher, at)).None? && ReleaseName(Unversioned(id, publisher, at).tags) == "a"
  {
    var ev := Unversioned(id, publisher, at);
    assert ev.tags[..0] == [];
    assert ReadTags(Blank(ev), ev.tags) == Blank(ev).(name := "a");
  }

  /**
   A valid release is hidden by a newer event that does not parse, and by one of the same
   second if that is listed first; listed second, it hides nothing.
   */
  lemma ValidReleaseCanBeHidden(publisher: string, id: string, other: string, at: int, digest: string)
    requires IsLowerSHA256(digest)
    ensures var good := Plain(id, publisher, at, digest);
            var tied, newer := Unversioned(other, publisher, at), Unversioned(other, publisher, at + 1);
            && CatalogueNewest(Catalogue([good, newer], []), publisher, "a") == None
            && CatalogueNewest(Catalogue([tied, good], []), publisher, "a") == None
            && CatalogueNewest(Catalogue([good, tied], []), publisher, "a") == Some(Release(publisher, "a", "1", digest, id))
  {
    var good := Plain(id, publisher, at, digest);
    var tied, newer := Unversioned(other, publisher, at), Unversioned(other, publisher, at + 1);
    PlainParses(id, publisher, at, digest);
    UnversionedDoesNotParse(other, publisher, at);
    UnversionedDoesNotParse(other, publisher, at + 1);
    FirstNewestDecides(Catalogue([good, newer], []), publisher, "a", 1);
    FirstNewestDecides(Catalogue([tied, good], []), publisher, "a", 0);
    FirstNewestDecides(Catalogue([good, tied], []), publisher, "a", 0);
  }

  /** The resolved release need not bear the name asked for: releases are found by their first name tag and named by their last. */
  lemma NameIsKeptExactlyWhen(c: Catalogue, publisher: string, name: string, ev: Event)
    requires Newest(Keep(Somes(c.releases), IsReleaseOf(publisher, name))) == Some(ev)
    requires CatalogueNewest(c, publisher, name).Some?
    ensures CatalogueNewest(c, publisher, name).value.name == name
       <==> LastValue(ev.tags, Valued("name")) == ReleaseName(ev.tags)
  {
    ParseReleaseMeans(ev);
    var _ := BestInCatalogue(c, publisher, name);
  }

  lemma NameCanDiffer(publisher: string, id: string, digest: string)
    requires IsLowerSHA256(digest)
    ensures var tags := [["name", "a"], ["version", "1"], ["x", digest], ["name", "b"]];
            var ev := Event(id, publisher, 0, KIND_RELEASE, tags, "", "");
            CatalogueNewest(Catalogue([ev], []), publisher, "a") == Some(Release(publisher, "b", "1", digest, id))
  {
    var tags := [["name", "a"], ["version", "1"], ["x", digest], ["name", "b"]];
    var ev := Event(id, publisher, 0, KIND_RELEASE, tags, "", "");
    var b := Blank(ev);
    assert ReadTags(b, tags[..3][..2][..1]) == b.(name := "a");
    assert ReadTags(b, tags[..3]) == b.(name := "a", version := "1", sha256 := digest);
    var kept := Keep(Somes([ev]), IsReleaseOf(publisher, "a"));
    assert Newest(kept) == Some(ev);
  }

  // ---- The loops ----

  method ReleaseNameLoop(tags: seq<Tag>) returns (name: string)
    ensures name == ReleaseName(tags)
  {
    for i := 0 to |tags|
      invariant ReleaseName(tags[i..]) == ReleaseName(tags)
    {
      if |tags[i]| >= 2 && tags[i][0] == "name" { return tags[i][1]; }
    }
    return "";
  }

  method ParseReleaseLoop(ev: Event) returns (release: Option<Release>)
    ensures release == ParseRelease(ev)
  {
    if ev.kind != KIND_RELEASE { return None; }
    var rel := Release(ev.pubkey, "", "", "", ev.id);
    for i := 0 to |ev.tags|
      invariant rel == ReadTags(Blank(ev), ev.tags[..i])
    {
      var t := ev.tags[i];
      assert ev.tags[..i + 1][..i] == ev.tags[..i];
      if |t| < 2 { continue; }
      if t[0] == "name" {
        rel := rel.(name := t[1]);
      } else if t[0] == "version" {
        rel := rel.(version := t[1]);
      } else if t[0] == "x" && |t[1]| == 64 && All(t[1], IsHex) {
        rel := rel.(sha256 := Lower(t[1]));
      }
    }
    assert ev.tags[..|ev.tags|] == ev.tags;
    if rel.name == "" || rel.version == "" || !IsSHA256(rel.sha256) { return None; }
    return Some(rel);
  }

  method NewestReleaseLoop(relays: seq<string>, name: string, hits: Hits, revocations: Hits)
    returns (release: Option<Release>)
    ensures release == NewestRelease(relays, name, hits, revocations)
  {
    if relays == [] { return None; }
    var best: Option<Event> := None;
    ghost var kept := Keep(hits, HasName(name));
    for i := 0 to |hits|
      invariant best == Newest(kept[..i])
    {
      assert kept[..i + 1][..i] == kept[..i];
      if hits[i].None? { continue; }
      var ev := hits[i].value;
      var evName := ReleaseNameLoop(ev.tags);
      if evName != name { continue; }
      if best.Some? && ev.createdAt <= best.value.createdAt { continue; }
      best := Some(ev);
    }
    assert kept[..|hits|] == kept;
    if best.None? { return None; }
    release := ParseReleaseLoop(best.value);
    if release.None? { return None; }
    if IsRevoked(revocations, best.value.id) { return None; }
  }

  /** The ids a catalogue's author has revoked. */
  function RevokedIds(revocations: seq<Event>, publisher: string): set<string> {
    set i, j | 0 <= i < |revocations| && revocations[i].kind == KIND_REVOCATION && revocations[i].pubkey == publisher
               && 0 <= j < |revocations[i].tags| && |revocations[i].tags[j]| >= 2 && revocations[i].tags[j][0] == "e"
      :: revocations[i].tags[j][1]
  }

  method CatalogueNewestLoop(c: Catalogue, publisher: string, name: string) returns (release: Option<Release>)
    ensures release == CatalogueNewest(c, publisher, name)
  {
    var revoked := CollectRevoked(c.revocations, publisher);
    var best: Option<Event> := None;
    ghost var kept := Keep(Somes(c.releases), IsReleaseOf(publisher, name));
    for i := 0 to |c.releases|
      invariant best == Newest(kept[..i])
    {
      assert kept[..i + 1][..i] == kept[..i];
      var ev := c.releases[i];
      var evName := ReleaseNameLoop(ev.tags);
      if ev.kind != KIND_RELEASE || ev.pubkey != publisher || evName != name { continue; }
      if best.Some? && ev.createdAt <= best.value.createdAt { continue; }
      best := Some(ev);
    }
    assert kept[..|kept|] == kept;
    if best.None? { return None; }
    release := ParseReleaseLoop(best.value);
    if release.None? { return None; }
    if best.value.id in revoked { return None; }
  }

  method CollectRevoked(revocations: seq<Event>, publisher: string) returns (revoked: set<string>)
    ensures revoked == RevokedIds(revocations, publisher)
  {
    revoked := {};
    for i := 0 to |revocations|
      invariant revoked == RevokedIds(revocations[..i], publisher)
    {
      var rev := revocations[i];
      ghost var before := revoked;
      assert revocations[..i + 1] == revocations[..i] + [rev];
      if rev.kind != KIND_REVOCATION || rev.pubkey != publisher { continue; }
      for j := 0 to |rev.tags|
        invariant revoked == before + set k | 0 <= k < j && |rev.tags[k]| >= 2 && rev.tags[k][0] == "e" :: rev.tags[k][1]
      {
        if |rev.tags[j]| >= 2 && rev.tags[j][0] == "e" { revoked := revoked + {rev.tags[j][1]}; }
      }
    }
    assert revocations[..|revocations|] == revocations;
  }
}
