/**
 Validation of NIP-5A manifest events: the checks in the order the gateway makes
 them, and independently, for each error code, what it means to deserve it.
 */
module Manifest {
  import opened Outcome
  import opened Text
  import opened Nostr
  import opened Aggregate
  import Label

  const KIND_ROOT := 15128
  const KIND_NAMED := 35128
  const KIND_SNAPSHOT := 5128

  datatype Code =
    | BadId | BadSignature | ForbiddenSigner | BadKind | MissingD | BadD | DOnRoot | NoPaths
    | BadPathShape | RelativePath | NoExtension | BadPathChars | BadHashHex | DuplicatePath
    | OversizePathCount | MissingAggregateX | MultipleAggregateX | BadXShape | BadAggregateX
    | MissingLowerA | MultipleLowerA | MultipleUpperA | MissingUpperA | BadLowerAShape | BadUpperAShape

  /** The libraries Validate calls. */
  datatype Library = Library(
    checkId: Event -> bool, checkSignature: Event -> bool, sha256Hex: string -> string, nip19: Label.Nip19)

  datatype Options = Options(forbidden: set<string>, maxPaths: int)

  datatype Verdict = Verdict(
    valid: bool, errors: seq<Code>, siteType: Option<Label.SiteType>, pubkey: string, eventId: string,
    d: string, paths: seq<Path>, aggregateHash: string, labelText: string)

  function PathLimit(opts: Options): int { if opts.maxPaths == 0 then 5000 else opts.maxPaths }

  predicate IsSHA256Hex(s: string) { |s| == 64 && All(s, IsLowerHex) }

  predicate HasPathExtension(path: string) {
    var last := AfterLast(path, '/');
    '.' in last && last != "." && !HasPrefix(last, "..")
  }

  predicate IsBadChar(c: char) { c < ' ' || c == 0x7F as char || c == '\\' }

  predicate HasBadPathChars(path: string) {
    (exists i :: 0 <= i < |path| && IsBadChar(path[i])) || ".." in Split(path, '/')
  }

  predicate IsRefChar(c: char) { IsBase36(c) || 'A' <= c <= 'Z' || c == '_' || c == '-' }

  /** reRef: decimal digits, a colon, 64 lower-case hex digits, a colon, and an identifier. */
  predicate MatchesRef(s: string) {
    exists k :: 1 <= k && k + 66 <= |s|
      && All(s[..k], IsDigit) && s[k] == ':'
      && All(s[k + 1..k + 65], IsLowerHex) && s[k + 65] == ':'
      && All(s[k + 66..], IsRefChar)
  }

  // ---- The checks, in order ----

  predicate IsKind(kind: int) { kind == KIND_ROOT || kind == KIND_NAMED || kind == KIND_SNAPSHOT }

  function DCodes(kind: int, dValues: seq<string>): seq<Code> {
    if kind == KIND_NAMED then
      if dValues == [] then [MissingD]
      else if |dValues| > 1 || !Label.IsValidD(dValues[0]) then [BadD] else []
    else if kind == KIND_ROOT && dValues != [] then [DOnRoot]
    else []
  }

  /** The error of a path tag taken alone, by the first rule it breaks. */
  function PathFault(t: Tag): Option<Code> {
    if |t| != 3 then Some(BadPathShape)
    else if !HasPrefix(t[1], "/") then Some(RelativePath)
    else if !HasPathExtension(t[1]) then Some(NoExtension)
    else if HasBadPathChars(t[1]) then Some(BadPathChars)
    else if !IsSHA256Hex(t[2]) then Some(BadHashHex)
    else None
  }

  datatype PathScan = PathScan(codes: seq<Code>, seen: set<string>, paths: seq<Path>)

  /** One turn of the loop over path tags. */
  function ScanPath(s: PathScan, t: Tag): PathScan {
    match PathFault(t)
    case Some(code) => s.(codes := s.codes + [code])
    case None =>
      PathScan(s.codes + if t[1] in s.seen then [DuplicatePath] else [],
               s.seen + {t[1]}, s.paths + [Path(t[1], t[2])])
  }

  function ScanPaths(tags: seq<Tag>): PathScan {
    if tags == [] then PathScan([], {}, []) else ScanPath(ScanPaths(tags[..|tags| - 1]), tags[|tags| - 1])
  }

  predicate IsAggregateX(t: Tag) { |t| == 3 && t[2] == "aggregate" && IsSHA256Hex(t[1]) }

  function XCountCodes(kind: int, xTags: seq<Tag>): seq<Code> {
    if kind != KIND_SNAPSHOT then []
    else if xTags == [] then [MissingAggregateX]
    else if |xTags| > 1 then [MultipleAggregateX]
    else []
  }

  function XCode(t: Tag, computed: string): seq<Code> {
    if !IsAggregateX(t) then [BadXShape] else if computed != "" && t[1] != computed then [BadAggregateX] else []
  }

  function XCodes(xTags: seq<Tag>, computed: string): seq<Code> {
    if xTags == [] then [] else XCodes(xTags[..|xTags| - 1], computed) + XCode(xTags[|xTags| - 1], computed)
  }

  predicate IsRefTag(t: Tag) { |t| >= 2 && MatchesRef(t[1]) }

  function RefCodes(tags: seq<Tag>, code: Code): seq<Code> {
    if tags == [] then []
    else RefCodes(tags[..|tags| - 1], code) + if IsRefTag(tags[|tags| - 1]) then [] else [code]
  }

  function ACountCodes(kind: int, lower: nat, upper: nat): seq<Code> {
    (if lower == 0 then [MissingLowerA] else if lower > 1 then [MultipleLowerA] else [])
    + (if upper > 1 then [MultipleUpperA] else [])
    + (if lower > 0 && upper == 0 && kind != KIND_SNAPSHOT then [MissingUpperA] else [])
  }

  function ACodes(kind: int, lower: seq<Tag>, upper: seq<Tag>): seq<Code> {
    if kind == KIND_SNAPSHOT || lower != [] || upper != []
    then ACountCodes(kind, |lower|, |upper|) + RefCodes(lower, BadLowerAShape) + RefCodes(upper, BadUpperAShape)
    else []
  }

  function Computed(paths: seq<Path>, lib: Library): string {
    if paths == [] then "" else lib.sha256Hex(Preimage(paths))
  }

  function AddIf(errors: seq<Code>, broken: bool, c: Code): seq<Code> { if broken then errors + [c] else errors }

  /** Every error in the order it is found, repeats included. */
  function RawErrors(ev: Event, opts: Options, lib: Library): seq<Code> {
    var pathTags, xTags := FilterTags(ev.tags, "path"), FilterTags(ev.tags, "x");
    var scan := ScanPaths(pathTags);
    var signer := AddIf([], ev.pubkey in opts.forbidden, ForbiddenSigner);
    var kind := AddIf(signer, !IsKind(ev.kind), BadKind);
    var d := kind + DCodes(ev.kind, TagValues(ev.tags, "d"));
    var paths := AddIf(d, pathTags == [], NoPaths) + scan.codes;
    var count := AddIf(paths, |pathTags| > PathLimit(opts), OversizePathCount);
    var x := count + (XCountCodes(ev.kind, xTags) + XCodes(xTags, Computed(scan.paths, lib)));
    x + ACodes(ev.kind, FilterTags(ev.tags, "a"), FilterTags(ev.tags, "A"))
  }

  /** Keeps the first occurrence of each code. */
  function Dedupe(codes: seq<Code>): seq<Code> {
    if codes == [] then []
    else
      var init, last := Dedupe(codes[..|codes| - 1]), codes[|codes| - 1];
      if last in init then init else init + [last]
  }

  function SiteTypeOf(kind: int): Option<Label.SiteType> {
    if kind == KIND_ROOT then Some(Label.Root)
    else if kind == KIND_NAMED then Some(Label.Named)
    else if kind == KIND_SNAPSHOT then Some(Label.Snapshot)
    else None
  }

  function LabelOf(ev: Event, d: string, lib: Library): string {
    if ev.kind == KIND_ROOT then
      var npub := lib.nip19.encodePublicKey(ev.pubkey);
      if npub.Some? then npub.value else ""
    else if ev.kind == KIND_NAMED && d != "" then
      var named := Label.NamedLabel(ev.pubkey, d);
      if named.Ok? then named.value else ""
    else if ev.kind == KIND_SNAPSHOT then
      var snapshot := Label.SnapshotLabel(ev.id);
      if snapshot.Ok? then snapshot.value else ""
    else ""
  }

  function Refusal(ev: Event, code: Code): Verdict {
    Verdict(false, [code], None, ev.pubkey, ev.id, "", [], "", "")
  }

  function VerdictOf(ev: Event, opts: Options, lib: Library): Verdict {
    if !lib.checkId(ev) then Refusal(ev, BadId)
    else if !lib.checkSignature(ev) then Refusal(ev, BadSignature)
    else
      var errors := Dedupe(RawErrors(ev, opts, lib));
      var paths := ScanPaths(FilterTags(ev.tags, "path")).paths;
      var dValues := TagValues(ev.tags, "d");
      var d := if dValues != [] then dValues[0] else "";
      Verdict(errors == [], errors, SiteTypeOf(ev.kind), ev.pubkey, ev.id, d, paths,
              Computed(paths, lib), LabelOf(ev, d, lib))
  }

  // ---- Dedupe ----

  predicate NoRepeats(codes: seq<Code>) { forall i, j :: 0 <= i < j < |codes| ==> codes[i] != codes[j] }

  /** Where a code first occurs. */
  function FirstAt(codes: seq<Code>, c: Code): (i: nat)
    requires c in codes
    ensures i < |codes| && codes[i] == c && c !in codes[..i]
  {
    if codes[0] == c then 0
    else
      var i := FirstAt(codes[1..], c);
      assert codes[..i + 1] == [codes[0]] + codes[1..][..i];
      i + 1
  }

  lemma {:induction false} DedupeKeepsCodes(codes: seq<Code>)
    ensures forall c :: c in Dedupe(codes) <==> c in codes
    ensures Dedupe(codes) == [] <==> codes == []
  {
    if codes != [] {
      DedupeKeepsCodes(codes[..|codes| - 1]);
    }
  }

  lemma {:induction false} DedupeNoRepeats(codes: seq<Code>)
    ensures NoRepeats(Dedupe(codes))
  {
    if codes != [] {
      DedupeNoRepeats(codes[..|codes| - 1]);
    }
  }

  predicate FirstInOrder(codes: seq<Code>, picked: seq<Code>) {
    && (forall c :: c in picked ==> c in codes)
    && (forall i, j :: 0 <= i < j < |picked| ==> FirstAt(codes, picked[i]) < FirstAt(codes, picked[j]))
  }

  lemma FirstAtLast(before: seq<Code>, last: Code)
    requires last !in before
    ensures FirstAt(before + [last], last) == |before|
  {}

  lemma {:induction false} DedupeInOrder(codes: seq<Code>)
    ensures FirstInOrder(codes, Dedupe(codes))
  {
    if codes != [] {
      var before, last := codes[..|codes| - 1], codes[|codes| - 1];
      var init := Dedupe(before);
      DedupeInOrder(before);
      DedupeKeepsCodes(before);
      assert codes == before + [last];
      forall i | 0 <= i < |init|
        ensures FirstAt(codes, init[i]) == FirstAt(before, init[i]) < |before|
      {
        FirstAtPrefix(before, last, init[i]);
      }
      if last !in init { FirstAtLast(before, last); }
    }
  }

  /** Deduping keeps the codes, each once, in the order of their first occurrences. */
  lemma {:induction false} DedupeKeepsFirsts(codes: seq<Code>)
    ensures forall c :: c in Dedupe(codes) <==> c in codes
    ensures NoRepeats(Dedupe(codes)) && FirstInOrder(codes, Dedupe(codes))
    ensures Dedupe(codes) == [] <==> codes == []
  {
    DedupeKeepsCodes(codes);
    DedupeInOrder(codes);
  }

  lemma FirstAtPrefix(before: seq<Code>, last: Code, c: Code)
    requires c in before
    ensures FirstAt(before + [last], c) == FirstAt(before, c)
  {
    var codes := before + [last];
    var i, j := FirstAt(codes, c), FirstAt(before, c);
    assert codes[j] == c;
    assert i < |before| && before[i] == codes[i];
  }

  /** dedupe, writing its output over its own input. */
  method DedupeInPlace(a: array<Code>) returns (n: nat)
    modifies a
    ensures n <= a.Length && a[..n] == Dedupe(old(a[..]))
  {
    var seen: set<Code> := {};
    n := 0;
    ghost var was := a[..];
    for i := 0 to a.Length
      invariant n <= i
      invariant forall k :: i <= k < a.Length ==> a[k] == was[k]
      invariant a[..n] == Dedupe(was[..i])
      invariant forall c :: c in seen <==> c in a[..n]
    {
      assert was[..i + 1][..i] == was[..i];
      var s := a[i];
      if s !in seen {
        seen := seen + {s};
        a[n] := s;
        n := n + 1;
      }
    }
    assert was[..a.Length] == was;
  }

  // ---- What each code means ----

  /** A path tag that breaks no rule, for the path `x`. */
  function GoodPathAt(x: string): Tag -> bool {
    t => TagName(t) == "path" && PathFault(t).None? && t[1] == x
  }

  function GoodPath(): Tag -> bool { t => TagName(t) == "path" && PathFault(t).None? }

  function FaultyPath(c: Code): Tag -> bool { t => TagName(t) == "path" && PathFault(t) == Some(c) }

  function BadDValue(): Tag -> bool { t => TagName(t) == "d" && |t| > 1 && !Label.IsValidD(t[1]) }

  function BadX(): Tag -> bool { t => TagName(t) == "x" && !IsAggregateX(t) }

  function WrongX(computed: string): Tag -> bool { t => TagName(t) == "x" && IsAggregateX(t) && t[1] != computed }

  function BadRef(name: string): Tag -> bool { t => TagName(t) == name && !IsRefTag(t) }

  function ToPath(t: Tag): Path { if |t| == 3 then Path(t[1], t[2]) else Path("", "") }

  /** The entries of a manifest: its good path tags, in order. */
  function Entries(tags: seq<Tag>): seq<Path> { Map(ToPath, Select(tags, GoodPath())) }

  predicate IsPathFault(c: Code) {
    c == BadPathShape || c == RelativePath || c == NoExtension || c == BadPathChars || c == BadHashHex
  }

  /** What an event must be guilty of to be given a code. */
  ghost predicate Deserves(ev: Event, opts: Options, lib: Library, c: Code) {
    match c
    case BadId => !lib.checkId(ev)
    case BadSignature => lib.checkId(ev) && !lib.checkSignature(ev)
    case _ => lib.checkId(ev) && lib.checkSignature(ev) && DeservesByContent(ev, opts, lib, c)
  }

  ghost predicate DeservesByContent(ev: Event, opts: Options, lib: Library, c: Code) {
    || (c == ForbiddenSigner && ev.pubkey in opts.forbidden)
    || (c == BadKind && ev.kind != KIND_ROOT && ev.kind != KIND_NAMED && ev.kind != KIND_SNAPSHOT)
    || DeservesD(ev, c) || DeservesPath(ev.tags, PathLimit(opts), c) || DeservesX(ev, lib, c) || DeservesA(ev, c)
  }

  ghost predicate DeservesD(ev: Event, c: Code) {
    match c
    case MissingD => ev.kind == KIND_NAMED && !One(ev.tags, Valued("d"))
    case BadD => ev.kind == KIND_NAMED && (Two(ev.tags, Valued("d")) || One(ev.tags, BadDValue()))
    case DOnRoot => ev.kind == KIND_ROOT && One(ev.tags, Valued("d"))
    case _ => false
  }

  /** Two good path tags list one path. */
  ghost predicate RepeatsPath(tags: seq<Tag>) { exists x :: Two(tags, GoodPathAt(x)) }

  ghost predicate DeservesPath(tags: seq<Tag>, limit: int, c: Code) {
    match c
    case NoPaths => !One(tags, Named("path"))
    case DuplicatePath => RepeatsPath(tags)
    case OversizePathCount => |FilterTags(tags, "path")| > limit
    case _ => IsPathFault(c) && One(tags, FaultyPath(c))
  }

  ghost predicate DeservesX(ev: Event, lib: Library, c: Code) {
    match c
    case MissingAggregateX => ev.kind == KIND_SNAPSHOT && !One(ev.tags, Named("x"))
    case MultipleAggregateX => ev.kind == KIND_SNAPSHOT && Two(ev.tags, Named("x"))
    case BadXShape => One(ev.tags, BadX())
    case BadAggregateX =>
      One(ev.tags, GoodPath()) && One(ev.tags, WrongX(lib.sha256Hex(Preimage(Entries(ev.tags)))))
    case _ => false
  }

  ghost predicate DeservesA(ev: Event, c: Code) {
    match c
    case MissingLowerA => !One(ev.tags, Named("a")) && (ev.kind == KIND_SNAPSHOT || One(ev.tags, Named("A")))
    case MultipleLowerA => Two(ev.tags, Named("a"))
    case MultipleUpperA => Two(ev.tags, Named("A"))
    case MissingUpperA => ev.kind != KIND_SNAPSHOT && One(ev.tags, Named("a")) && !One(ev.tags, Named("A"))
    case BadLowerAShape => One(ev.tags, BadRef("a"))
    case BadUpperAShape => One(ev.tags, BadRef("A"))
    case _ => false
  }

  /** sha256 in hexadecimal, of which only the length is used. */
  ghost predicate IsDigest(digest: string -> string) { forall b :: |digest(b)| == 64 }

  lemma {:induction false} SelectOfSelect<T>(xs: seq<T>, p: T -> bool, q: T -> bool)
    requires forall x :: x in xs && q(x) ==> p(x)
    ensures Select(Select(xs, p), q) == Select(xs, q)
  {
    if xs != [] {
      var last := |xs| - 1;
      SelectOfSelect(xs[..last], p, q);
      var init := Select(xs[..last], p);
      assert xs[last] in xs;
      if p(xs[last]) {
        assert (init + [xs[last]])[..|init|] == init;
      } else {
        assert Select(xs, p) == init && Select(xs, q) == Select(xs[..last], q);
      }
    }
  }

  /** Among the tags of one name, a narrower rule picks what it picks among all tags. */
  lemma Narrow(tags: seq<Tag>, name: string, q: Tag -> bool)
    requires forall t :: t in tags && q(t) ==> TagName(t) == name
    ensures One(FilterTags(tags, name), q) <==> One(tags, q)
    ensures Two(FilterTags(tags, name), q) <==> Two(tags, q)
    ensures Select(FilterTags(tags, name), q) == Select(tags, q)
  {
    SelectOfSelect(tags, Named(name), q);
    SelectPicks(FilterTags(tags, name), q);
    SelectPicks(tags, q);
    SelectTwo(FilterTags(tags, name), q);
    SelectTwo(tags, q);
  }

  lemma OneSnoc<T>(init: seq<T>, last: T, p: T -> bool)
    ensures One(init + [last], p) <==> One(init, p) || p(last)
  {
    SelectPicks(init + [last], p);
  }

  lemma {:induction false} XCodesMean(xTags: seq<Tag>, computed: string)
    requires forall t :: t in xTags ==> TagName(t) == "x"
    ensures BadXShape in XCodes(xTags, computed) <==> One(xTags, BadX())
    ensures BadAggregateX in XCodes(xTags, computed) <==> computed != "" && One(xTags, WrongX(computed))
    ensures forall c :: c in XCodes(xTags, computed) ==> c == BadXShape || c == BadAggregateX
  {
    if xTags != [] {
      var init, last := xTags[..|xTags| - 1], xTags[|xTags| - 1];
      assert xTags == init + [last];
      XCodesMean(init, computed);
      OneSnoc(init, last, WrongX(computed));
    }
  }

  lemma {:induction false} RefCodesMean(tags: seq<Tag>, name: string, code: Code)
    requires forall t :: t in tags ==> TagName(t) == name
    ensures code in RefCodes(tags, code) <==> One(tags, BadRef(name))
    ensures forall c :: c in RefCodes(tags, code) ==> c == code
  {
    if tags != [] {
      var init, last := tags[..|tags| - 1], tags[|tags| - 1];
      assert tags == init + [last];
      RefCodesMean(init, name, code);
      OneSnoc(init, last, BadRef(name));
    }
  }

  lemma {:induction false} ScanPathsEntries(tags: seq<Tag>)
    requires forall t :: t in tags ==> TagName(t) == "path"
    ensures ScanPaths(tags).paths == Entries(tags)
  {
    if tags != [] {
      var init, last := tags[..|tags| - 1], tags[|tags| - 1];
      assert tags == init + [last];
      ScanPathsEntries(init);
      var good := Select(init, GoodPath());
      if GoodPath()(last) {
        assert Map(ToPath, good + [last]) == Map(ToPath, good) + [ToPath(last)];
      } else {
        assert good + [] == good;
      }
    }
  }

  lemma {:induction false} ScanPathsFaults(tags: seq<Tag>)
    requires forall t :: t in tags ==> TagName(t) == "path"
    ensures forall c :: c in ScanPaths(tags).codes ==> IsPathFault(c) || c == DuplicatePath
    ensures forall c :: IsPathFault(c) ==> (c in ScanPaths(tags).codes <==> One(tags, FaultyPath(c)))
  {
    if tags != [] {
      var init, last := tags[..|tags| - 1], tags[|tags| - 1];
      assert tags == init + [last];
      ScanPathsFaults(init);
      forall c
        ensures One(tags, FaultyPath(c)) <==> One(init, FaultyPath(c)) || FaultyPath(c)(last)
      {
        OneSnoc(init, last, FaultyPath(c));
      }
    }
  }

  lemma {:induction false} ScanPathsSeen(tags: seq<Tag>, x: string)
    requires forall t :: t in tags ==> TagName(t) == "path"
    ensures x in ScanPaths(tags).seen <==> One(tags, GoodPathAt(x))
  {
    if tags != [] {
      var init, last := tags[..|tags| - 1], tags[|tags| - 1];
      assert tags == init + [last];
      ScanPathsSeen(init, x);
      OneSnoc(init, last, GoodPathAt(x));
    }
  }

  lemma {:induction false} ScanPathsDuplicates(tags: seq<Tag>)
    requires forall t :: t in tags ==> TagName(t) == "path"
    ensures DuplicatePath in ScanPaths(tags).codes <==> RepeatsPath(tags)
  {
    if tags != [] {
      var init, last := tags[..|tags| - 1], tags[|tags| - 1];
      assert tags == init + [last];
      ScanPathsDuplicates(init);
      forall x
        ensures Two(tags, GoodPathAt(x))
           <==> Two(init, GoodPathAt(x)) || (x in ScanPaths(init).seen && GoodPathAt(x)(last))
      {
        ScanPathsSeen(init, x);
        TwoSnoc(init, last, GoodPathAt(x));
      }
    }
  }

  lemma PathCodesMean(tags: seq<Tag>, c: Code)
    ensures var pathTags := FilterTags(tags, "path");
            && (c in ScanPaths(pathTags).codes <==>
                  if IsPathFault(c) then One(tags, FaultyPath(c))
                  else c == DuplicatePath && RepeatsPath(tags))
            && (pathTags == [] <==> !One(tags, Named("path")))
            && ScanPaths(pathTags).paths == Entries(tags)
            && (Entries(tags) != [] <==> One(tags, GoodPath()))
  {
    var pathTags := FilterTags(tags, "path");
    SelectPicks(tags, Named("path"));
    SelectPicks(tags, GoodPath());
    ScanPathsFaults(pathTags);
    ScanPathsDuplicates(pathTags);
    ScanPathsEntries(pathTags);
    Narrow(tags, "path", FaultyPath(c));
    Narrow(tags, "path", GoodPath());
    forall x
      ensures Two(pathTags, GoodPathAt(x)) <==> Two(tags, GoodPathAt(x))
    {
      Narrow(tags, "path", GoodPathAt(x));
    }
  }

  lemma DCodesMean(tags: seq<Tag>)
    ensures var dValues := TagValues(tags, "d");
            && (dValues != [] <==> One(tags, Valued("d")))
            && (|dValues| > 1 <==> Two(tags, Valued("d")))
            && (|dValues| == 1 ==> (One(tags, BadDValue()) <==> !Label.IsValidD(dValues[0])))
  {
    var dTags := Select(tags, Valued("d"));
    SelectPicks(tags, Valued("d"));
    SelectTwo(tags, Valued("d"));
    SelectPicks(tags, BadDValue());
    if |dTags| == 1 {
      assert dTags[0] in dTags;
      SelectOfSelect(tags, Valued("d"), BadDValue());
    }
  }

  lemma XCountMeans(ev: Event, c: Code)
    ensures c in XCountCodes(ev.kind, FilterTags(ev.tags, "x")) <==>
              ev.kind == KIND_SNAPSHOT
              && ((c == MissingAggregateX && !One(ev.tags, Named("x")))
                  || (c == MultipleAggregateX && Two(ev.tags, Named("x"))))
  {
    SelectPicks(ev.tags, Named("x"));
    SelectTwo(ev.tags, Named("x"));
  }

  lemma XShapeMeans(ev: Event, lib: Library, c: Code)
    requires IsDigest(lib.sha256Hex)
    ensures c in XCodes(FilterTags(ev.tags, "x"), Computed(Entries(ev.tags), lib)) <==>
              || (c == BadXShape && One(ev.tags, BadX()))
              || (c == BadAggregateX && Entries(ev.tags) != []
                  && One(ev.tags, WrongX(lib.sha256Hex(Preimage(Entries(ev.tags))))))
  {
    var xTags, computed := FilterTags(ev.tags, "x"), Computed(Entries(ev.tags), lib);
    SelectPicks(ev.tags, Named("x"));
    XCodesMean(xTags, computed);
    Narrow(ev.tags, "x", BadX());
    Narrow(ev.tags, "x", WrongX(computed));
  }

  lemma TagsOfName(tags: seq<Tag>, name: string)
    ensures forall t :: t in FilterTags(tags, name) ==> TagName(t) == name
    ensures FilterTags(tags, name) != [] <==> One(tags, Named(name))
    ensures |FilterTags(tags, name)| > 1 <==> Two(tags, Named(name))
  {
    SelectPicks(tags, Named(name));
    SelectTwo(tags, Named(name));
  }

  lemma NarrowOne(tags: seq<Tag>, name: string, q: Tag -> bool)
    requires forall t :: t in tags && q(t) ==> TagName(t) == name
    ensures One(FilterTags(tags, name), q) <==> One(tags, q)
  {
    Narrow(tags, name, q);
  }

  lemma RefsMean(tags: seq<Tag>, name: string, code: Code, c: Code)
    ensures c in RefCodes(FilterTags(tags, name), code) <==> c == code && One(tags, BadRef(name))
  {
    TagsOfName(tags, name);
    RefCodesMean(FilterTags(tags, name), name, code);
    NarrowOne(tags, name, BadRef(name));
  }

  lemma ACountMeans(kind: int, lower: nat, upper: nat, c: Code)
    ensures c in ACountCodes(kind, lower, upper) <==>
              || (c == MissingLowerA && lower == 0)
              || (c == MultipleLowerA && lower > 1)
              || (c == MultipleUpperA && upper > 1)
              || (c == MissingUpperA && lower > 0 && upper == 0 && kind != KIND_SNAPSHOT)
  {}

  lemma AGroupMeans(ev: Event, c: Code)
    ensures c in ACodes(ev.kind, FilterTags(ev.tags, "a"), FilterTags(ev.tags, "A")) <==>
              || (c == MissingLowerA && !One(ev.tags, Named("a"))
                  && (ev.kind == KIND_SNAPSHOT || One(ev.tags, Named("A"))))
              || (c == MultipleLowerA && Two(ev.tags, Named("a")))
              || (c == MultipleUpperA && Two(ev.tags, Named("A")))
              || (c == MissingUpperA && ev.kind != KIND_SNAPSHOT
                  && One(ev.tags, Named("a")) && !One(ev.tags, Named("A")))
              || (c == BadLowerAShape && One(ev.tags, BadRef("a")))
              || (c == BadUpperAShape && One(ev.tags, BadRef("A")))
  {
    var lower, upper := FilterTags(ev.tags, "a"), FilterTags(ev.tags, "A");
    TagsOfName(ev.tags, "a");
    TagsOfName(ev.tags, "A");
    RefsMean(ev.tags, "a", BadLowerAShape, c);
    RefsMean(ev.tags, "A", BadUpperAShape, c);
    ACountMeans(ev.kind, |lower|, |upper|, c);
  }

  lemma RawErrorsAre(ev: Event, opts: Options, lib: Library, c: Code)
    ensures var pathTags, xTags := FilterTags(ev.tags, "path"), FilterTags(ev.tags, "x");
            var scan := ScanPaths(pathTags);
            c in RawErrors(ev, opts, lib) <==>
              || (c == ForbiddenSigner && ev.pubkey in opts.forbidden)
              || (c == BadKind && !IsKind(ev.kind))
              || c in DCodes(ev.kind, TagValues(ev.tags, "d"))
              || (c == NoPaths && pathTags == [])
              || c in scan.codes
              || (c == OversizePathCount && |pathTags| > PathLimit(opts))
              || c in XCountCodes(ev.kind, xTags)
              || c in XCodes(xTags, Computed(scan.paths, lib))
              || c in ACodes(ev.kind, FilterTags(ev.tags, "a"), FilterTags(ev.tags, "A"))
  {
    var pathTags, xTags := FilterTags(ev.tags, "path"), FilterTags(ev.tags, "x");
    var scan := ScanPaths(pathTags);
    var x := XCountCodes(ev.kind, xTags) + XCodes(xTags, Computed(scan.paths, lib));
    var a := ACodes(ev.kind, FilterTags(ev.tags, "a"), FilterTags(ev.tags, "A"));
    CollectedAre(ev.pubkey in opts.forbidden, !IsKind(ev.kind), DCodes(ev.kind, TagValues(ev.tags, "d")), pathTags == [],
                 scan.codes, |pathTags| > PathLimit(opts), x, a, c);
  }

  /** What is collected, in order, from the groups of checks. */
  lemma CollectedAre(
      forbidden: bool, odd: bool, d: seq<Code>, none: bool, scan: seq<Code>, many: bool, x: seq<Code>, a: seq<Code>, c: Code)
    ensures var head := AddIf(AddIf([], forbidden, ForbiddenSigner), odd, BadKind) + d;
            c in AddIf(AddIf(head, none, NoPaths) + scan, many, OversizePathCount) + x + a <==>
              || (c == ForbiddenSigner && forbidden) || (c == BadKind && odd) || c in d || (c == NoPaths && none)
              || c in scan || (c == OversizePathCount && many) || c in x || c in a
  {}

  lemma DPart(ev: Event, c: Code)
    ensures c in DCodes(ev.kind, TagValues(ev.tags, "d")) <==> DeservesD(ev, c)
  {
    DCodesMean(ev.tags);
  }

  lemma PathBlame(tags: seq<Tag>, limit: int)
    ensures DeservesPath(tags, limit, NoPaths) <==> !One(tags, Named("path"))
    ensures DeservesPath(tags, limit, OversizePathCount) <==> |FilterTags(tags, "path")| > limit
    ensures DeservesPath(tags, limit, DuplicatePath) <==> RepeatsPath(tags)
  {}

  lemma PathPart(tags: seq<Tag>, limit: int, c: Code)
    ensures (c == NoPaths && FilterTags(tags, "path") == [])
         || c in ScanPaths(FilterTags(tags, "path")).codes
         || (c == OversizePathCount && |FilterTags(tags, "path")| > limit)
       <==> DeservesPath(tags, limit, c)
  {
    PathCodesMean(tags, c);
    PathBlame(tags, limit);
    if c == NoPaths || c == OversizePathCount || c == DuplicatePath {
    } else {
      assert DeservesPath(tags, limit, c) <==> IsPathFault(c) && One(tags, FaultyPath(c));
    }
  }

  lemma XPart(ev: Event, lib: Library, c: Code)
    requires IsDigest(lib.sha256Hex)
    ensures c in XCountCodes(ev.kind, FilterTags(ev.tags, "x"))
         || c in XCodes(FilterTags(ev.tags, "x"), Computed(Entries(ev.tags), lib))
       <==> DeservesX(ev, lib, c)
  {
    XCountMeans(ev, c);
    XShapeMeans(ev, lib, c);
    SelectPicks(ev.tags, GoodPath());
  }

  lemma APart(ev: Event, c: Code)
    ensures c in ACodes(ev.kind, FilterTags(ev.tags, "a"), FilterTags(ev.tags, "A")) <==> DeservesA(ev, c)
  {
    AGroupMeans(ev, c);
  }

  lemma RawErrorsMean(ev: Event, opts: Options, lib: Library, c: Code)
    requires IsDigest(lib.sha256Hex)
    ensures c in RawErrors(ev, opts, lib) <==> DeservesByContent(ev, opts, lib, c)
  {
    RawErrorsAre(ev, opts, lib, c);
    DPart(ev, c);
    PathPart(ev.tags, PathLimit(opts), c);
    PathCodesMean(ev.tags, c);
    XPart(ev, lib, c);
    APart(ev, c);
  }

  lemma EarlyCodesComeFirst(ev: Event, opts: Options, lib: Library)
    ensures !DeservesByContent(ev, opts, lib, BadId) && !DeservesByContent(ev, opts, lib, BadSignature)
  {}

  lemma LateErrors(ev: Event, opts: Options, lib: Library, c: Code)
    requires IsDigest(lib.sha256Hex) && lib.checkId(ev) && lib.checkSignature(ev)
    ensures c in VerdictOf(ev, opts, lib).errors <==> DeservesByContent(ev, opts, lib, c)
  {
    DedupeKeepsCodes(RawErrors(ev, opts, lib));
    RawErrorsMean(ev, opts, lib, c);
  }

  /** Validate reports a code exactly when the event deserves it. */
  lemma ErrorsAreDeserved(ev: Event, opts: Options, lib: Library, c: Code)
    requires IsDigest(lib.sha256Hex)
    ensures c in VerdictOf(ev, opts, lib).errors <==> Deserves(ev, opts, lib, c)
  {
    if lib.checkId(ev) && lib.checkSignature(ev) {
      LateErrors(ev, opts, lib, c);
      EarlyCodesComeFirst(ev, opts, lib);
    }
  }

  // ---- Validity ----

  ghost predicate DRule(ev: Event) {
    && (ev.kind == KIND_NAMED ==>
          One(ev.tags, Valued("d")) && !Two(ev.tags, Valued("d"))
          && forall i :: 0 <= i < |ev.tags| && Valued("d")(ev.tags[i]) ==> Label.IsValidD(ev.tags[i][1]))
    && (ev.kind == KIND_ROOT ==> !One(ev.tags, Valued("d")))
  }

  function PathOf(t: Tag): string { if |t| > 1 then t[1] else "" }

  ghost predicate PathRule(tags: seq<Tag>, limit: int) {
    && One(tags, Named("path")) && |FilterTags(tags, "path")| <= limit
    && (forall i :: 0 <= i < |tags| && TagName(tags[i]) == "path" ==> PathFault(tags[i]).None?)
    && (forall i, j :: 0 <= i < j < |tags| && TagName(tags[i]) == "path" && TagName(tags[j]) == "path" ==>
          PathOf(tags[i]) != PathOf(tags[j]))
  }

  ghost predicate XRule(ev: Event, lib: Library) {
    && (ev.kind == KIND_SNAPSHOT ==> One(ev.tags, Named("x")) && !Two(ev.tags, Named("x")))
    && (forall i :: 0 <= i < |ev.tags| && TagName(ev.tags[i]) == "x" ==>
          IsAggregateX(ev.tags[i]) && ev.tags[i][1] == lib.sha256Hex(Preimage(Entries(ev.tags))))
  }

  ghost predicate ARule(ev: Event) {
    && (ev.kind == KIND_SNAPSHOT || One(ev.tags, Named("a")) || One(ev.tags, Named("A")) ==>
          && One(ev.tags, Named("a")) && !Two(ev.tags, Named("a")) && !Two(ev.tags, Named("A"))
          && (ev.kind != KIND_SNAPSHOT ==> One(ev.tags, Named("A"))))
    && (forall i :: 0 <= i < |ev.tags| && (TagName(ev.tags[i]) == "a" || TagName(ev.tags[i]) == "A") ==>
          IsRefTag(ev.tags[i]))
  }

  /** A manifest, by all the rules together. */
  ghost predicate IsManifest(ev: Event, opts: Options, lib: Library) {
    && lib.checkId(ev) && lib.checkSignature(ev) && ev.pubkey !in opts.forbidden
    && (ev.kind == KIND_ROOT || ev.kind == KIND_NAMED || ev.kind == KIND_SNAPSHOT)
    && DRule(ev) && PathRule(ev.tags, PathLimit(opts)) && XRule(ev, lib) && ARule(ev)
  }

  lemma DRuleClears(ev: Event, c: Code)
    requires DRule(ev)
    ensures !DeservesD(ev, c)
  {}

  lemma DRuleHolds(ev: Event)
    requires !DeservesD(ev, MissingD) && !DeservesD(ev, BadD) && !DeservesD(ev, DOnRoot)
    ensures DRule(ev)
  {}

  lemma PathFaultsAreBlame(tags: seq<Tag>)
    ensures (forall i :: 0 <= i < |tags| && TagName(tags[i]) == "path" ==> PathFault(tags[i]).None?)
       <==> forall c :: IsPathFault(c) ==> !One(tags, FaultyPath(c))
  {
    if i :| 0 <= i < |tags| && TagName(tags[i]) == "path" && PathFault(tags[i]).Some? {
      assert FaultyPath(PathFault(tags[i]).value)(tags[i]);
    }
  }

  lemma RepeatedPathsAreBlame(tags: seq<Tag>)
    requires forall i :: 0 <= i < |tags| && TagName(tags[i]) == "path" ==> PathFault(tags[i]).None?
    ensures (forall i, j :: 0 <= i < j < |tags| && TagName(tags[i]) == "path" && TagName(tags[j]) == "path" ==>
               PathOf(tags[i]) != PathOf(tags[j]))
       <==> forall x :: !Two(tags, GoodPathAt(x))
  {
    if i, j :| 0 <= i < j < |tags| && TagName(tags[i]) == "path" && TagName(tags[j]) == "path"
               && PathOf(tags[i]) == PathOf(tags[j]) {
      var x := PathOf(tags[i]);
      assert Two(tags, GoodPathAt(x));
    }
    if x :| Two(tags, GoodPathAt(x)) {
      var i, j :| 0 <= i < j < |tags| && GoodPathAt(x)(tags[i]) && GoodPathAt(x)(tags[j]);
    }
  }

  lemma PathRuleClears(tags: seq<Tag>, limit: int, c: Code)
    requires PathRule(tags, limit)
    ensures !DeservesPath(tags, limit, c)
  {
    PathFaultsAreBlame(tags);
  }

  lemma PathRuleHolds(tags: seq<Tag>, limit: int)
    requires !DeservesPath(tags, limit, NoPaths) && !DeservesPath(tags, limit, OversizePathCount)
    requires !DeservesPath(tags, limit, DuplicatePath)
    requires forall c :: IsPathFault(c) ==> !One(tags, FaultyPath(c))
    ensures PathRule(tags, limit)
  {
    PathBlame(tags, limit);
    PathFaultsAreBlame(tags);
    RepeatedPathsAreBlame(tags);
  }

  lemma XTagsAreBlame(tags: seq<Tag>, computed: string)
    ensures (forall i :: 0 <= i < |tags| && TagName(tags[i]) == "x" ==> IsAggregateX(tags[i]) && tags[i][1] == computed)
       <==> !One(tags, BadX()) && !One(tags, WrongX(computed))
  {}

  lemma XRuleClears(ev: Event, lib: Library, c: Code)
    requires XRule(ev, lib)
    ensures !DeservesX(ev, lib, c)
  {}

  lemma XBlame(ev: Event, lib: Library)
    requires One(ev.tags, GoodPath())
    ensures DeservesX(ev, lib, BadXShape) <==> One(ev.tags, BadX())
    ensures DeservesX(ev, lib, BadAggregateX)
       <==> One(ev.tags, WrongX(lib.sha256Hex(Preimage(Entries(ev.tags)))))
  {}

  lemma XCountBlame(ev: Event, lib: Library)
    ensures !DeservesX(ev, lib, MissingAggregateX) && !DeservesX(ev, lib, MultipleAggregateX)
       <==> (ev.kind == KIND_SNAPSHOT ==> One(ev.tags, Named("x")) && !Two(ev.tags, Named("x")))
  {}

  lemma XRuleHolds(ev: Event, lib: Library)
    requires One(ev.tags, GoodPath())
    requires !DeservesX(ev, lib, MissingAggregateX) && !DeservesX(ev, lib, MultipleAggregateX)
    requires !DeservesX(ev, lib, BadXShape) && !DeservesX(ev, lib, BadAggregateX)
    ensures XRule(ev, lib)
  {
    var computed := lib.sha256Hex(Preimage(Entries(ev.tags)));
    XBlame(ev, lib);
    XCountBlame(ev, lib);
    XTagsAreBlame(ev.tags, computed);
  }

  lemma ARuleClears(ev: Event, c: Code)
    requires ARule(ev)
    ensures !DeservesA(ev, c)
  {}

  lemma ACountBlame(ev: Event)
    ensures !DeservesA(ev, MultipleLowerA) && !DeservesA(ev, MultipleUpperA)
       <==> !Two(ev.tags, Named("a")) && !Two(ev.tags, Named("A"))
    ensures !DeservesA(ev, MissingLowerA) && !DeservesA(ev, MissingUpperA)
       <==> (ev.kind == KIND_SNAPSHOT || One(ev.tags, Named("a")) || One(ev.tags, Named("A")) ==>
               One(ev.tags, Named("a")) && (ev.kind != KIND_SNAPSHOT ==> One(ev.tags, Named("A"))))
  {}

  lemma ARuleHolds(ev: Event)
    requires !DeservesA(ev, MissingLowerA) && !DeservesA(ev, MultipleLowerA) && !DeservesA(ev, MultipleUpperA)
    requires !DeservesA(ev, MissingUpperA) && !DeservesA(ev, BadLowerAShape) && !DeservesA(ev, BadUpperAShape)
    ensures ARule(ev)
  {
    ACountBlame(ev);
  }

  ghost predicate Blameless(ev: Event, opts: Options, lib: Library) {
    forall c :: !Deserves(ev, opts, lib, c)
  }

  lemma ManifestsAreBlameless(ev: Event, opts: Options, lib: Library, c: Code)
    requires IsManifest(ev, opts, lib)
    ensures !Deserves(ev, opts, lib, c)
  {
    DRuleClears(ev, c);
    PathRuleClears(ev.tags, PathLimit(opts), c);
    XRuleClears(ev, lib, c);
    ARuleClears(ev, c);
  }

  lemma BlamelessSigned(ev: Event, opts: Options, lib: Library)
    requires Blameless(ev, opts, lib)
    ensures lib.checkId(ev) && lib.checkSignature(ev)
  {
    assert !Deserves(ev, opts, lib, BadId) && !Deserves(ev, opts, lib, BadSignature);
  }

  lemma Unblamed(ev: Event, opts: Options, lib: Library, c: Code)
    requires Blameless(ev, opts, lib)
    ensures !DeservesByContent(ev, opts, lib, c)
    ensures !DeservesD(ev, c) && !DeservesPath(ev.tags, PathLimit(opts), c)
    ensures !DeservesX(ev, lib, c) && !DeservesA(ev, c)
  {
    BlamelessSigned(ev, opts, lib);
    EarlyCodesComeFirst(ev, opts, lib);
    assert !Deserves(ev, opts, lib, c);
  }

  lemma BlamelessD(ev: Event, opts: Options, lib: Library)
    requires Blameless(ev, opts, lib)
    ensures DRule(ev)
  {
    Unblamed(ev, opts, lib, MissingD);
    Unblamed(ev, opts, lib, BadD);
    Unblamed(ev, opts, lib, DOnRoot);
    DRuleHolds(ev);
  }

  lemma BlamelessPaths(ev: Event, opts: Options, lib: Library)
    requires Blameless(ev, opts, lib)
    ensures PathRule(ev.tags, PathLimit(opts))
  {
    forall c | IsPathFault(c)
      ensures !One(ev.tags, FaultyPath(c))
    {
      Unblamed(ev, opts, lib, c);
    }
    Unblamed(ev, opts, lib, NoPaths);
    Unblamed(ev, opts, lib, OversizePathCount);
    Unblamed(ev, opts, lib, DuplicatePath);
    PathRuleHolds(ev.tags, PathLimit(opts));
  }

  lemma BlamelessX(ev: Event, opts: Options, lib: Library)
    requires Blameless(ev, opts, lib) && One(ev.tags, GoodPath())
    ensures XRule(ev, lib)
  {
    Unblamed(ev, opts, lib, MissingAggregateX);
    Unblamed(ev, opts, lib, MultipleAggregateX);
    Unblamed(ev, opts, lib, BadXShape);
    Unblamed(ev, opts, lib, BadAggregateX);
    XRuleHolds(ev, lib);
  }

  lemma BlamelessA(ev: Event, opts: Options, lib: Library)
    requires Blameless(ev, opts, lib)
    ensures ARule(ev)
  {
    Unblamed(ev, opts, lib, MissingLowerA);
    Unblamed(ev, opts, lib, MultipleLowerA);
    Unblamed(ev, opts, lib, MultipleUpperA);
    Unblamed(ev, opts, lib, MissingUpperA);
    Unblamed(ev, opts, lib, BadLowerAShape);
    Unblamed(ev, opts, lib, BadUpperAShape);
    ARuleHolds(ev);
  }

  lemma BlamelessManifests(ev: Event, opts: Options, lib: Library)
    requires Blameless(ev, opts, lib)
    ensures IsManifest(ev, opts, lib)
  {
    BlamelessSigned(ev, opts, lib);
    Unblamed(ev, opts, lib, ForbiddenSigner);
    Unblamed(ev, opts, lib, BadKind);
    BlamelessD(ev, opts, lib);
    BlamelessPaths(ev, opts, lib);
    BlamelessX(ev, opts, lib);
    BlamelessA(ev, opts, lib);
  }

  /** The event is accepted exactly when it is a manifest. */
  lemma ValidExactly(ev: Event, opts: Options, lib: Library)
    requires IsDigest(lib.sha256Hex)
    ensures VerdictOf(ev, opts, lib).valid <==> IsManifest(ev, opts, lib)
  {
    ValidIsBlameless(ev, opts, lib);
    if IsManifest(ev, opts, lib) {
      forall c
        ensures !Deserves(ev, opts, lib, c)
      {
        ManifestsAreBlameless(ev, opts, lib, c);
      }
    }
    if Blameless(ev, opts, lib) { BlamelessManifests(ev, opts, lib); }
  }

  lemma ValidIsBlameless(ev: Event, opts: Options, lib: Library)
    requires IsDigest(lib.sha256Hex)
    ensures VerdictOf(ev, opts, lib).valid <==> Blameless(ev, opts, lib)
  {
    var errors := VerdictOf(ev, opts, lib).errors;
    forall c
      ensures c in errors <==> Deserves(ev, opts, lib, c)
    {
      ErrorsAreDeserved(ev, opts, lib, c);
    }
    assert errors != [] ==> errors[0] in errors;
  }
}
