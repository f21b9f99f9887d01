/** Validate as the gateway runs it, and the path map it serves a manifest from. */
module Validation {
  import opened Outcome
  import opened Text
  import opened Nostr
  import opened Aggregate
  import opened Manifest
  import Label

  method CheckPaths(pathTags: seq<Tag>) returns (codes: seq<Code>, validPaths: seq<Path>)
    ensures codes == ScanPaths(pathTags).codes && validPaths == ScanPaths(pathTags).paths
  {
    codes, validPaths := [], [];
    var seen: set<string> := {};
    for i := 0 to |pathTags|
      invariant PathScan(codes, seen, validPaths) == ScanPaths(pathTags[..i])
    {
      var t := pathTags[i];
      assert pathTags[..i + 1][..i] == pathTags[..i];
      if |t| != 3 { codes := codes + [BadPathShape]; continue; }
      var path, blobHash := t[1], t[2];
      if !HasPrefix(path, "/") { codes := codes + [RelativePath]; continue; }
      if !HasPathExtension(path) { codes := codes + [NoExtension]; continue; }
      if HasBadPathChars(path) { codes := codes + [BadPathChars]; continue; }
      if !IsSHA256Hex(blobHash) { codes := codes + [BadHashHex]; continue; }
      if path in seen { codes := codes + [DuplicatePath]; }
      seen := seen + {path};
      validPaths := validPaths + [Path(path, blobHash)];
    }
    assert pathTags[..|pathTags|] == pathTags;
  }

  method CheckX(kind: int, xTags: seq<Tag>, computed: string) returns (codes: seq<Code>)
    ensures codes == XCountCodes(kind, xTags) + XCodes(xTags, computed)
  {
    var count: seq<Code> := [];
    if kind == KIND_SNAPSHOT {
      if |xTags| == 0 { count := [MissingAggregateX]; } else if |xTags| > 1 { count := [MultipleAggregateX]; }
    }
    codes := count;
    for i := 0 to |xTags|
      invariant codes == count + XCodes(xTags[..i], computed)
    {
      var t := xTags[i];
      assert xTags[..i + 1][..i] == xTags[..i];
      if |t| != 3 || t[2] != "aggregate" || !IsSHA256Hex(t[1]) {
        codes := codes + [BadXShape];
      } else if computed != "" && t[1] != computed {
        codes := codes + [BadAggregateX];
      }
    }
    assert xTags[..|xTags|] == xTags;
  }

  method CheckRefs(tags: seq<Tag>, code: Code) returns (codes: seq<Code>)
    ensures codes == RefCodes(tags, code)
  {
    codes := [];
    for i := 0 to |tags|
      invariant codes == RefCodes(tags[..i], code)
    {
      assert tags[..i + 1][..i] == tags[..i];
      if |tags[i]| < 2 || !MatchesRef(tags[i][1]) { codes := codes + [code]; }
    }
    assert tags[..|tags|] == tags;
  }

  method CheckACount(kind: int, lower: nat, upper: nat) returns (codes: seq<Code>)
    ensures codes == ACountCodes(kind, lower, upper)
  {
    codes := [];
    if lower == 0 { codes := codes + [MissingLowerA]; } else if lower > 1 { codes := codes + [MultipleLowerA]; }
    if upper > 1 { codes := codes + [MultipleUpperA]; }
    if lower > 0 && upper == 0 && kind != KIND_SNAPSHOT { codes := codes + [MissingUpperA]; }
  }

  method CheckA(kind: int, lower: seq<Tag>, upper: seq<Tag>) returns (codes: seq<Code>)
    ensures codes == ACodes(kind, lower, upper)
  {
    codes := [];
    if kind == KIND_SNAPSHOT || |lower| > 0 || |upper| > 0 {
      codes := CheckACount(kind, |lower|, |upper|);
      var badLower := CheckRefs(lower, BadLowerAShape);
      codes := codes + badLower;
      var badUpper := CheckRefs(upper, BadUpperAShape);
      codes := codes + badUpper;
    }
  }

  method CheckD(kind: int, dValues: seq<string>) returns (codes: seq<Code>)
    ensures codes == DCodes(kind, dValues)
  {
    codes := [];
    if kind == KIND_NAMED {
      if |dValues| == 0 { codes := codes + [MissingD]; }
      else if |dValues| > 1 || !Label.IsValidD(dValues[0]) { codes := codes + [BadD]; }
    } else if kind == KIND_ROOT && |dValues| > 0 {
      codes := codes + [DOnRoot];
    }
  }

  method CollectErrors(ev: Event, opts: Options, lib: Library, dValues: seq<string>)
    returns (errors: seq<Code>, validPaths: seq<Path>, computed: string)
    requires dValues == TagValues(ev.tags, "d")
    ensures errors == RawErrors(ev, opts, lib)
    ensures validPaths == ScanPaths(FilterTags(ev.tags, "path")).paths && computed == Computed(validPaths, lib)
  {
    errors := [];
    if ev.pubkey in opts.forbidden { errors := errors + [ForbiddenSigner]; }
    if ev.kind != KIND_ROOT && ev.kind != KIND_NAMED && ev.kind != KIND_SNAPSHOT { errors := errors + [BadKind]; }
    var dCodes := CheckD(ev.kind, dValues);
    errors := errors + dCodes;
    var pathTags := FilterTagsLoop(ev.tags, "path");
    if |pathTags| == 0 { errors := errors + [NoPaths]; }
    var pathCodes, paths := CheckPaths(pathTags);
    validPaths := paths;
    errors := errors + pathCodes;
    if |pathTags| > PathLimit(opts) { errors := errors + [OversizePathCount]; }
    computed := "";
    if |validPaths| > 0 { computed := AggregateHash(validPaths, lib.sha256Hex); }
    var xTags := FilterTagsLoop(ev.tags, "x");
    var xCodes := CheckX(ev.kind, xTags, computed);
    var lower := FilterTagsLoop(ev.tags, "a");
    var upper := FilterTagsLoop(ev.tags, "A");
    var aCodes := CheckA(ev.kind, lower, upper);
    errors := errors + xCodes;
    errors := errors + aCodes;
  }

  /** The loops of Validate, whose verdict is valid exactly when the event is a manifest. */
  method Validate(ev: Event, opts: Options, lib: Library) returns (v: Verdict)
    ensures v == VerdictOf(ev, opts, lib)
    ensures IsDigest(lib.sha256Hex) ==> (v.valid <==> IsManifest(ev, opts, lib))
  {
    ghost var digest := IsDigest(lib.sha256Hex);
    if digest { ValidExactly(ev, opts, lib); }
    if !lib.checkId(ev) { return Refusal(ev, BadId); }
    if !lib.checkSignature(ev) { return Refusal(ev, BadSignature); }
    var dValues := TagValuesLoop(ev.tags, "d");
    var raw, validPaths, computed := CollectErrors(ev, opts, lib, dValues);
    var buffer := new Code[|raw|](i requires 0 <= i < |raw| => raw[i]);
    assert buffer[..] == raw;
    var n := DedupeInPlace(buffer);
    var errors := buffer[..n];
    var d := if |dValues| > 0 then dValues[0] else "";
    return Verdict(|errors| == 0, errors, SiteTypeOf(ev.kind), ev.pubkey, ev.id, d, validPaths, computed,
                   LabelOf(ev, d, lib));
  }

  // ---- The served paths ----

  /** Last entry wins. */
  function PathMap(tags: seq<Tag>): map<string, string> {
    if tags == [] then map[]
    else
      var m, t := PathMap(tags[..|tags| - 1]), tags[|tags| - 1];
      if |t| >= 3 && t[0] == "path" then m[t[1] := t[2]] else m
  }

  method BuildPathMap(tags: seq<Tag>) returns (paths: map<string, string>)
    ensures paths == PathMap(tags)
  {
    paths := map[];
    for i := 0 to |tags|
      invariant paths == PathMap(tags[..i])
    {
      assert tags[..i + 1][..i] == tags[..i];
      if |tags[i]| >= 3 && tags[i][0] == "path" { paths := paths[tags[i][1] := tags[i][2]]; }
    }
    assert tags[..|tags|] == tags;
  }

  /** A list of entries as a function, when no path is listed twice. */
  ghost predicate Lists(entries: seq<Path>, m: map<string, string>) {
    && |m| == |entries|
    && (forall p :: p in entries ==> p.path in m && m[p.path] == p.hash)
    && (forall x :: x in m ==> Path(x, m[x]) in entries)
  }

  function MapOf(entries: seq<Path>): map<string, string> {
    if entries == [] then map[]
    else MapOf(entries[..|entries| - 1])[entries[|entries| - 1].path := entries[|entries| - 1].hash]
  }

  lemma ListsSnoc(init: seq<Path>, last: Path, m: map<string, string>)
    requires Lists(init, m) && last.path !in m
    ensures Lists(init + [last], m[last.path := last.hash])
  {}

  ghost predicate PathsApart(entries: seq<Path>) {
    forall i, j :: 0 <= i < j < |entries| ==> entries[i].path != entries[j].path
  }

  lemma ApartSnoc(init: seq<Path>, last: Path)
    requires PathsApart(init + [last])
    ensures PathsApart(init) && forall i :: 0 <= i < |init| ==> init[i].path != last.path
  {
    var entries := init + [last];
    assert entries[|init|] == last && forall i :: 0 <= i < |init| ==> entries[i] == init[i];
  }

  lemma KeysAreListed(entries: seq<Path>, m: map<string, string>, path: string)
    requires Lists(entries, m)
    ensures path in m ==> exists i :: 0 <= i < |entries| && entries[i].path == path
  {
    if path in m {
      var i :| 0 <= i < |entries| && entries[i] == Path(path, m[path]);
    }
  }

  lemma {:induction false} MapOfLists(entries: seq<Path>)
    requires PathsApart(entries)
    ensures Lists(entries, MapOf(entries))
  {
    if entries != [] {
      var init, last := entries[..|entries| - 1], entries[|entries| - 1];
      assert entries == init + [last];
      ApartSnoc(init, last);
      MapOfLists(init);
      KeysAreListed(init, MapOf(init), last.path);
      ListsSnoc(init, last, MapOf(init));
    }
  }

  lemma {:induction false} PathMapIsMapOf(tags: seq<Tag>)
    requires forall i :: 0 <= i < |tags| && TagName(tags[i]) == "path" ==> PathFault(tags[i]).None?
    ensures PathMap(tags) == MapOf(Entries(tags)) && |Entries(tags)| == |FilterTags(tags, "path")|
  {
    if tags != [] {
      var init, t := tags[..|tags| - 1], tags[|tags| - 1];
      PathMapIsMapOf(init);
      assert t == tags[|tags| - 1];
      if TagName(t) == "path" {
        assert PathFault(t).None?;
        var good := Select(init, GoodPath());
        assert Map(ToPath, good + [t]) == Map(ToPath, good) + [ToPath(t)];
        assert Entries(tags) == Entries(init) + [Path(t[1], t[2])];
        assert Entries(tags)[..|Entries(tags)| - 1] == Entries(init);
      } else {
        assert Select(init, GoodPath()) + [] == Select(init, GoodPath());
      }
    }
  }

  lemma EntriesDistinct(tags: seq<Tag>)
    requires forall x :: !Two(tags, GoodPathAt(x))
    ensures PathsApart(Entries(tags))
  {
    var good, es := Select(tags, GoodPath()), Entries(tags);
    SelectPicks(tags, GoodPath());
    if i, j :| 0 <= i < j < |es| && es[i].path == es[j].path {
      var x := es[i].path;
      assert good[i] in good && good[j] in good;
      assert GoodPath()(good[i]) && GoodPath()(good[j]);
      assert es[i] == ToPath(good[i]) && es[j] == ToPath(good[j]);
      assert GoodPathAt(x)(good[i]) && GoodPathAt(x)(good[j]);
      SelectOfSelect(tags, GoodPath(), GoodPathAt(x));
      SelectTwo(good, GoodPathAt(x));
      SelectTwo(tags, GoodPathAt(x));
    }
  }

  /** What is served for a valid manifest is its verdict's paths, one entry per path tag. */
  lemma ServedPathsAreTheVerdicts(ev: Event, opts: Options, lib: Library)
    requires IsDigest(lib.sha256Hex) && VerdictOf(ev, opts, lib).valid
    ensures Lists(VerdictOf(ev, opts, lib).paths, PathMap(ev.tags))
    ensures |PathMap(ev.tags)| == |FilterTags(ev.tags, "path")| > 0
  {
    ValidExactly(ev, opts, lib);
    RepeatedPathsAreBlame(ev.tags);
    PathMapIsMapOf(ev.tags);
    EntriesDistinct(ev.tags);
    MapOfLists(Entries(ev.tags));
    TagsOfName(ev.tags, "path");
    ScanPathsEntries(FilterTags(ev.tags, "path"));
    Narrow(ev.tags, "path", GoodPath());
  }

  // ---- The aggregate of validated paths ----

  lemma GoodPathIsEntry(t: Tag)
    requires PathFault(t).None?
    ensures IsEntry(ToPath(t))
  {}

  lemma VerdictPathsAreEntries(ev: Event, opts: Options, lib: Library)
    ensures AllEntries(VerdictOf(ev, opts, lib).paths)
  {
    var pathTags := FilterTags(ev.tags, "path");
    TagsOfName(ev.tags, "path");
    ScanPathsEntries(pathTags);
    SelectPicks(pathTags, GoodPath());
    var good := Select(pathTags, GoodPath());
    forall i | 0 <= i < |good|
      ensures IsEntry(Map(ToPath, good)[i])
    {
      assert good[i] in good;
      GoodPathIsEntry(good[i]);
    }
  }

  /**
   Two accepted manifests carry the same aggregate hash exactly when their path
   entries are permutations of one another, unless sha256 collides on them.
   */
  lemma AggregateIdentifiesContent(a: Event, b: Event, opts: Options, lib: Library)
    requires IsDigest(lib.sha256Hex)
    requires VerdictOf(a, opts, lib).valid && VerdictOf(b, opts, lib).valid
    requires var p, q := Preimage(VerdictOf(a, opts, lib).paths), Preimage(VerdictOf(b, opts, lib).paths);
             p != q ==> lib.sha256Hex(p) != lib.sha256Hex(q)
    ensures VerdictOf(a, opts, lib).aggregateHash == VerdictOf(b, opts, lib).aggregateHash
       <==> multiset(VerdictOf(a, opts, lib).paths) == multiset(VerdictOf(b, opts, lib).paths)
  {
    VerdictPathsAreEntries(a, opts, lib);
    VerdictPathsAreEntries(b, opts, lib);
    HashIsCanonical(VerdictOf(a, opts, lib).paths, VerdictOf(b, opts, lib).paths, lib.sha256Hex);
  }

  // ---- Manifests there are ----

  lemma TopFileSplits(name: string)
    requires '/' !in name
    ensures AfterLast("/" + name, '/') == name && Split("/" + name, '/') == ["", name]
  {
    assert "/" + name == "" + ['/'] + name;
    AfterLastOf("", '/', name);
    SplitHead("", '/', name);
    SplitNone(name, '/');
  }

  lemma TopFileHasNoBadChars(name: string)
    requires '/' !in name && !HasPrefix(name, "..") && forall i :: 0 <= i < |name| ==> !IsBadChar(name[i])
    ensures !HasBadPathChars("/" + name)
  {
    TopFileSplits(name);
    var path := "/" + name;
    assert forall i :: 0 < i < |path| ==> path[i] == name[i - 1];
    assert name != "..";
  }

  /** A plain file name with an extension is a good path at the top. */
  lemma TopFileIsGood(name: string, digest: string)
    requires IsSHA256Hex(digest) && '/' !in name && '.' in name && name != "." && !HasPrefix(name, "..")
    requires forall i :: 0 <= i < |name| ==> !IsBadChar(name[i])
    ensures PathFault(["path", "/" + name, digest]).None?
  {
    TopFileSplits(name);
    TopFileHasNoBadChars(name);
    assert ("/" + name)[..1] == "/";
  }

  /** A root event with one good path tag and nothing else is a manifest. */
  lemma OnePathIsManifest(ev: Event, tag: Tag, opts: Options, lib: Library)
    requires IsDigest(lib.sha256Hex) && lib.checkId(ev) && lib.checkSignature(ev) && ev.pubkey !in opts.forbidden
    requires ev.kind == KIND_ROOT && ev.tags == [tag] && TagName(tag) == "path" && PathFault(tag).None?
    requires PathLimit(opts) >= 1
    ensures VerdictOf(ev, opts, lib).valid
  {
    OneTagPathRule(tag, PathLimit(opts));
    OneTagOtherRules(ev, tag, lib);
    ValidExactly(ev, opts, lib);
  }

  lemma OneTagOtherRules(ev: Event, tag: Tag, lib: Library)
    requires ev.kind == KIND_ROOT && ev.tags == [tag] && TagName(tag) == "path"
    ensures DRule(ev) && XRule(ev, lib) && ARule(ev)
  {}

  lemma OneTagPathRule(tag: Tag, limit: int)
    requires TagName(tag) == "path" && PathFault(tag).None? && limit >= 1
    ensures PathRule([tag], limit)
  {
    var tags := [tag];
    assert Named("path")(tags[0]) && tags[..|tags| - 1] == [];
    assert Select<Tag>([], Named("path")) == [] && Named("path")(tag);
    assert FilterTags(tags, "path") == Select<Tag>([], Named("path")) + [tag];
  }
}
