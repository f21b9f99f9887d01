/** Lexical paths: how site paths and archive members are placed inside a bundle. */
module BundlePath {
  import opened Outcome
  import opened Text

  predicate IsRooted(p: string) { HasPrefix(p, "/") }

  /** One segment of a path taken by filepath.Clean; a rooted path has nothing above it. */
  function Step(stack: seq<string>, seg: string, rooted: bool): seq<string> {
    if seg == "" || seg == "." then stack
    else if seg == ".." then
      if stack != [] && stack[|stack| - 1] != ".." then stack[..|stack| - 1]
      else if rooted then stack
      else stack + [".."]
    else stack + [seg]
  }

  function Walk(stack: seq<string>, segs: seq<string>, rooted: bool): seq<string> {
    if segs == [] then stack else Step(Walk(stack, segs[..|segs| - 1], rooted), segs[|segs| - 1], rooted)
  }

  /** The segments that filepath.Clean keeps. */
  function Cleaned(p: string): seq<string> { Walk([], Split(p, '/'), IsRooted(p)) }

  function Clean(p: string): string {
    if IsRooted(p) then "/" + Join(Cleaned(p), '/')
    else if Cleaned(p) == [] then "."
    else Join(Cleaned(p), '/')
  }

  /** filepath.Join of two elements. */
  function PathJoin(a: string, b: string): string {
    if a == "" then if b == "" then "" else Clean(b)
    else if b == "" then Clean(a)
    else Clean(a + "/" + b)
  }

  /** filepath.Abs, in working directory `cwd`. */
  function Abs(cwd: string, p: string): string { if IsRooted(p) then Clean(p) else PathJoin(cwd, p) }

  predicate IsName(seg: string) { seg != "" && seg != "." && seg != ".." && '/' !in seg }

  ghost predicate AreNames(segs: seq<string>) { forall i :: 0 <= i < |segs| ==> IsName(segs[i]) }

  // ---- bundleRel and within ----

  function BundleRel(sitePath: string): Option<string> {
    if !HasPrefix(sitePath, "/") || '\\' in sitePath then None
    else if ".." in Split(sitePath, '/') then None
    else
      var clean := Clean(sitePath);
      if HasPrefix(clean, "..") then None
      else
        var rel := if HasPrefix(clean, "/") then clean[1..] else clean;
        if rel == "" then None
        else if Split(rel, '/')[0] == ".npack" then None
        else Some(rel)
  }

  predicate Within(cwd: string, root: string, target: string) {
    var absRoot, absTarget := Abs(cwd, root), Abs(cwd, target);
    absTarget == absRoot || HasPrefix(absTarget, absRoot + "/")
  }

  // ---- Walking ----

  lemma {:induction false} WalkConcat(stack: seq<string>, a: seq<string>, b: seq<string>, rooted: bool)
    ensures Walk(stack, a + b, rooted) == Walk(Walk(stack, a, rooted), b, rooted)
  {
    if b == [] {
      assert a + b == a;
    } else {
      WalkConcat(stack, a, b[..|b| - 1], rooted);
      assert (a + b)[..|a + b| - 1] == a + b[..|b| - 1];
    }
  }

  lemma {:induction false} RootedWalkIsNames(stack: seq<string>, segs: seq<string>)
    requires AreNames(stack) && forall i :: 0 <= i < |segs| ==> '/' !in segs[i]
    ensures AreNames(Walk(stack, segs, true))
  {
    if segs != [] { RootedWalkIsNames(stack, segs[..|segs| - 1]); }
  }

  lemma {:induction false} RelativeWalkHasNoSeparator(segs: seq<string>)
    requires forall i :: 0 <= i < |segs| ==> '/' !in segs[i]
    ensures forall i :: 0 <= i < |Walk([], segs, false)| ==>
              IsName(Walk([], segs, false)[i]) || Walk([], segs, false)[i] == ".."
  {
    if segs != [] { RelativeWalkHasNoSeparator(segs[..|segs| - 1]); }
  }

  lemma {:induction false} NamesWalk(stack: seq<string>, segs: seq<string>, rooted: bool)
    requires AreNames(segs)
    ensures Walk(stack, segs, rooted) == stack + segs
  {
    if segs != [] {
      NamesWalk(stack, segs[..|segs| - 1], rooted);
    }
  }

  /** Walking what Clean keeps of a relative path leads where the path itself leads. */
  lemma {:induction false} CleanLeadsThere(stack: seq<string>, segs: seq<string>)
    requires AreNames(stack) && forall i :: 0 <= i < |segs| ==> '/' !in segs[i]
    ensures Walk(stack, Walk([], segs, false), true) == Walk(stack, segs, true)
  {
    if segs != [] {
      var init, seg := segs[..|segs| - 1], segs[|segs| - 1];
      CleanLeadsThere(stack, init);
      var u := Walk([], init, false);
      RelativeWalkHasNoSeparator(init);
      if seg == ".." && u != [] && u[|u| - 1] != ".." {
        var v, y := u[..|u| - 1], u[|u| - 1];
        WalkConcat(stack, v, [y], true);
      } else if seg != "" && seg != "." {
        WalkConcat(stack, u, [seg], true);
      }
    }
  }

  lemma {:induction false} WalkSkips(stack: seq<string>, segs: seq<string>)
    requires forall i :: 0 <= i < |segs| ==> segs[i] != ".."
    ensures Walk(stack, segs, true) == stack + Names(segs)
  {
    if segs == [] {
    } else {
      WalkSkips(stack, segs[..|segs| - 1]);
    }
  }

  /** The segments of a path that are neither empty nor ".". */
  function Names(segs: seq<string>): seq<string> {
    if segs == [] then []
    else
      var init, seg := Names(segs[..|segs| - 1]), segs[|segs| - 1];
      if seg == "" || seg == "." then init else init + [seg]
  }

  lemma {:induction false} NamesAreNames(segs: seq<string>)
    requires forall i :: 0 <= i < |segs| ==> '/' !in segs[i] && segs[i] != ".."
    ensures AreNames(Names(segs))
  {
    if segs != [] { NamesAreNames(segs[..|segs| - 1]); }
  }

  // ---- What bundleRel accepts ----

  ghost predicate IsBundlePath(sitePath: string) {
    var segs := Split(sitePath, '/');
    && HasPrefix(sitePath, "/") && '\\' !in sitePath
    && (forall i :: 0 <= i < |segs| ==> segs[i] != "..")
    && Names(segs) != [] && Names(segs)[0] != ".npack"
  }

  lemma CleanOfNames(sitePath: string)
    requires HasPrefix(sitePath, "/") && ".." !in Split(sitePath, '/')
    ensures Clean(sitePath) == "/" + Join(Names(Split(sitePath, '/')), '/')
    ensures AreNames(Names(Split(sitePath, '/')))
  {
    var segs := Split(sitePath, '/');
    SplitJoin(sitePath, '/');
    assert forall i :: 0 <= i < |segs| ==> segs[i] in segs;
    WalkSkips([], segs);
    NamesAreNames(segs);
    assert [] + Names(segs) == Names(segs);
  }

  /** bundleRel, exactly: which spellings it accepts, and the names it gives back. */
  lemma BundleRelExactly(sitePath: string)
    ensures BundleRel(sitePath).Some? <==> IsBundlePath(sitePath)
    ensures BundleRel(sitePath).Some? ==>
              && BundleRel(sitePath).value == Join(Names(Split(sitePath, '/')), '/')
              && Split(BundleRel(sitePath).value, '/') == Names(Split(sitePath, '/'))
              && AreNames(Split(BundleRel(sitePath).value, '/'))
  {
    var segs := Split(sitePath, '/');
    if HasPrefix(sitePath, "/") && '\\' !in sitePath && ".." !in segs {
      CleanOfNames(sitePath);
      var names, clean := Names(segs), Clean(sitePath);
      assert clean[0] == '/' && clean[1..] == Join(names, '/');
      if names != [] {
        JoinSplit(names, '/');
        JoinNotEmpty(names);
      }
    }
  }

  lemma JoinNotEmpty(parts: seq<string>)
    requires parts != [] && parts[0] != ""
    ensures Join(parts, '/') != ""
  {}

  // ---- Where paths lead ----

  /** The names from the file system's root to where `p` leads, seen from `cwd`. */
  function Resolved(cwd: string, p: string): seq<string> {
    if IsRooted(p) then Walk([], Split(p, '/'), true)
    else Walk(Walk([], Split(cwd, '/'), true), Split(p, '/'), true)
  }

  lemma ResolvedAreNames(cwd: string, p: string)
    ensures AreNames(Resolved(cwd, p))
  {
    SplitJoin(p, '/');
    SplitJoin(cwd, '/');
    RootedWalkIsNames([], Split(p, '/'));
    RootedWalkIsNames([], Split(cwd, '/'));
    RootedWalkIsNames(Walk([], Split(cwd, '/'), true), Split(p, '/'));
  }

  lemma {:induction false} SplitConcat(a: string, b: string)
    ensures Split(a + ['/'] + b, '/') == Split(a, '/') + Split(b, '/')
    decreases |a|
  {
    var i := IndexOf(a, '/');
    if i == |a| {
      SplitHead(a, '/', b);
    } else {
      var head, rest := a[..i], a[i + 1..];
      SplitConcat(rest, b);
      Regroup(head, rest, b);
      assert a == head + ['/'] + rest;
      SplitHead(head, '/', rest + ['/'] + b);
    }
  }

  lemma Regroup(head: string, rest: string, b: string)
    ensures head + ['/'] + rest + ['/'] + b == head + ['/'] + (rest + ['/'] + b)
  {}

  /** A longer path leads on from where its first part leads. */
  lemma ResolvedConcat(cwd: string, a: string, b: string)
    requires a != ""
    ensures Resolved(cwd, a + "/" + b) == Walk(Resolved(cwd, a), Split(b, '/'), true)
  {
    SplitConcat(a, b);
    assert IsRooted(a + "/" + b) == IsRooted(a) by { assert (a + "/" + b)[0] == a[0]; }
    WalkConcat([], Split(a, '/'), Split(b, '/'), true);
    WalkConcat(Walk([], Split(cwd, '/'), true), Split(a, '/'), Split(b, '/'), true);
  }

  /** Clean changes the spelling of a path and not where it leads. */
  lemma CleanLeadsToTheSame(cwd: string, p: string)
    ensures Resolved(cwd, Clean(p)) == Resolved(cwd, p)
    ensures IsRooted(Clean(p)) == IsRooted(p)
  {
    var segs := Split(p, '/');
    SplitJoin(p, '/');
    SplitJoin(cwd, '/');
    var base := Walk([], Split(cwd, '/'), true);
    RootedWalkIsNames([], Split(cwd, '/'));
    var kept := Cleaned(p);
    if IsRooted(p) {
      RootedWalkIsNames([], segs);
      RootSpelling(kept);
    } else {
      CleanLeadsThere(base, segs);
      RelativeWalkHasNoSeparator(segs);
      if kept == [] {
        SplitNone(".", '/');
      } else {
        assert IsName(kept[0]) || kept[0] == "..";
        JoinSplit(kept, '/');
        JoinHead(kept);
      }
    }
  }

  lemma JoinHead(parts: seq<string>)
    requires parts != [] && parts[0] != ""
    ensures Join(parts, '/') != "" && Join(parts, '/')[0] == parts[0][0]
    ensures parts[0] <= Join(parts, '/')
  {}

  lemma RootSpelling(names: seq<string>)
    requires AreNames(names)
    ensures Walk([], Split("/" + Join(names, '/'), '/'), true) == names
  {
    var rest := Join(names, '/');
    SplitHead("", '/', rest);
    assert "/" + rest == "" + ['/'] + rest;
    var tail := Split(rest, '/');
    WalkConcat([], [""], tail, true);
    assert [""][..0] == [];
    if names == [] {
    } else {
      JoinSplit(names, '/');
      NamesWalk([], names, true);
      assert [] + names == names;
    }
  }

  lemma AbsIsResolved(cwd: string, p: string)
    requires IsRooted(cwd)
    ensures Abs(cwd, p) == "/" + Join(Resolved(cwd, p), '/')
  {
    if !IsRooted(p) {
      if p == "" {
        var base := Walk([], Split(cwd, '/'), true);
        assert Walk(base, [""], true) == Step(base, "", true) == base;
      } else {
        SplitConcat(cwd, p);
        assert IsRooted(cwd + "/" + p) by { assert (cwd + "/" + p)[0] == cwd[0]; }
        WalkConcat([], Split(cwd, '/'), Split(p, '/'), true);
      }
    }
  }

  lemma {:induction false} JoinConcat(a: seq<string>, b: seq<string>)
    requires a != [] && b != []
    ensures Join(a + b, '/') == Join(a, '/') + "/" + Join(b, '/')
  {
    assert (a + b)[0] == a[0];
    if |a| == 1 {
    } else {
      JoinConcat(a[1..], b);
      assert (a + b)[1..] == a[1..] + b;
    }
  }

  /** Placing names under a root leads to those names below where the root leads. */
  lemma PlacedUnder(cwd: string, root: string, rel: string)
    requires root != "" && rel != ""
    ensures Resolved(cwd, PathJoin(root, rel)) == Walk(Resolved(cwd, root), Split(rel, '/'), true)
  {
    CleanLeadsToTheSame(cwd, root + "/" + rel);
    ResolvedConcat(cwd, root, rel);
  }

  /** `within` holds of a path of names exactly when the root is not the file system's own. */
  lemma WithinExactly(cwd: string, root: string, rel: string)
    requires IsRooted(cwd) && root != "" && rel != "" && AreNames(Split(rel, '/'))
    ensures Within(cwd, root, PathJoin(root, rel)) <==> Resolved(cwd, root) != []
    ensures Resolved(cwd, PathJoin(root, rel)) == Resolved(cwd, root) + Split(rel, '/')
  {
    var base, names := Resolved(cwd, root), Split(rel, '/');
    ResolvedAreNames(cwd, root);
    SplitJoin(rel, '/');
    PlacedUnder(cwd, root, rel);
    NamesWalk(base, names, true);
    AbsIsResolved(cwd, root);
    AbsIsResolved(cwd, PathJoin(root, rel));
    PrefixExactly(base, names);
  }

  lemma PrefixExactly(base: seq<string>, names: seq<string>)
    requires AreNames(base) && AreNames(names) && names != []
    ensures var root, target := "/" + Join(base, '/'), "/" + Join(base + names, '/');
            (target == root || HasPrefix(target, root + "/")) <==> base != []
  {
    if base != [] {
      JoinConcat(base, names);
    } else {
      assert base + names == names && IsName(names[0]);
      JoinHead(names);
      assert ("/" + Join(names, '/'))[1] == names[0][0];
    }
  }

  /** Open never refuses what bundleRel accepted: the bundle's own directory is never the root of the file system. */
  lemma OpenNeverEscapes(cwd: string, dir: string, sha: string, sitePath: string)
    requires IsRooted(cwd) && dir != "" && IsName(sha) && BundleRel(sitePath).Some?
    ensures var root, rel := PathJoin(dir, sha), BundleRel(sitePath).value;
            && Within(cwd, root, PathJoin(root, rel))
            && Resolved(cwd, PathJoin(root, rel)) == Resolved(cwd, dir) + [sha] + Names(Split(sitePath, '/'))
  {
    var root, rel := PathJoin(dir, sha), BundleRel(sitePath).value;
    BundleRelExactly(sitePath);
    BundleDir(cwd, dir, sha);
    WithinExactly(cwd, root, rel);
  }

  lemma BundleDir(cwd: string, dir: string, sha: string)
    requires dir != "" && IsName(sha)
    ensures Resolved(cwd, PathJoin(dir, sha)) == Resolved(cwd, dir) + [sha] && PathJoin(dir, sha) != ""
  {
    PlacedUnder(cwd, dir, sha);
    CleanIsNotEmpty(dir + "/" + sha);
  }

  lemma CleanIsNotEmpty(p: string)
    ensures Clean(p) != ""
  {
    if !IsRooted(p) && Cleaned(p) != [] {
      SplitJoin(p, '/');
      RelativeWalkHasNoSeparator(Split(p, '/'));
      JoinHead(Cleaned(p));
    }
  }

  /** A normalised request path without "." or empty segments is looked up in the bundle as it stands, less its slash. */
  lemma CleanRequestIsItself(q: string)
    requires HasPrefix(q, "/") && '\\' !in q && AreNames(Split(q[1..], '/'))
    ensures BundleRel(q) == if Split(q[1..], '/')[0] == ".npack" then None else Some(q[1..])
  {
    var rest := q[1..];
    var names := Split(rest, '/');
    SplitJoin(rest, '/');
    var segs := Split(q, '/');
    forall i | 0 <= i < |segs|
      ensures segs[i] != ".."
    {
      if i > 0 { assert IsName(names[i - 1]); }
    }
    WalkSkips([], segs);
    WalkConcat([], [""], names, true);
    NamesWalk([], names, true);
    assert [""][..0] == [] && [] + Names(segs) == Names(segs) && [] + names == names;
    BundleRelExactly(q);
  }

  // ---- Archive members ----

  /** extractTar's placing of a member: its names below the destination, or a refusal. */
  function MemberNames(cwd: string, dest: string, member: string): Option<seq<string>> {
    var name := Clean(member);
    if HasPrefix(name, "..") || IsRooted(name) then None
    else if !Within(cwd, dest, PathJoin(dest, name)) then None
    else Some(Cleaned(member))
  }

  /** In a cleaned relative path no parent step comes after a name. */
  lemma {:induction false} NoParentAfterName(segs: seq<string>)
    ensures var u := Walk([], segs, false);
            u == [] || u[0] == ".." || forall i :: 0 <= i < |u| ==> u[i] != ".."
    ensures var u := Walk([], segs, false);
            u != [] && u[|u| - 1] == ".." ==> u[0] == ".."
  {
    if segs != [] {
      var u := Walk([], segs[..|segs| - 1], false);
      NoParentAfterName(segs[..|segs| - 1]);
      var u' := Walk([], segs, false);
      if u' != [] && u != [] { assert u'[0] == u[0]; }
    }
  }

  lemma MemberIsPlaced(cwd: string, dest: string, member: string)
    requires IsRooted(cwd) && dest != "" && Resolved(cwd, dest) != [] && !IsRooted(member)
    requires Cleaned(member) == [] || !HasPrefix(Cleaned(member)[0], "..")
    ensures AreNames(Cleaned(member))
    ensures Within(cwd, dest, PathJoin(dest, Clean(member)))
    ensures Resolved(cwd, PathJoin(dest, Clean(member))) == Resolved(cwd, dest) + Cleaned(member)
  {
    var segs, u := Split(member, '/'), Cleaned(member);
    CleanIsNotEmpty(member);
    SplitJoin(member, '/');
    RelativeWalkHasNoSeparator(segs);
    NoParentAfterName(segs);
    if u == [] {
      SplitNone(".", '/');
      PlacedUnder(cwd, dest, ".");
      var base := Resolved(cwd, dest);
      assert ["."][..0] == [];
      assert Walk(base, ["."], true) == Step(base, ".", true) == base == base + u;
      AbsIsResolved(cwd, dest);
      AbsIsResolved(cwd, PathJoin(dest, "."));
    } else {
      JoinSplit(u, '/');
      WithinExactly(cwd, dest, Join(u, '/'));
    }
  }

  /** Every member that is let through stays below the destination, and the second check never decides. */
  lemma MembersAreConfined(cwd: string, dest: string, member: string)
    requires IsRooted(cwd) && dest != "" && Resolved(cwd, dest) != []
    ensures MemberNames(cwd, dest, member).Some? <==>
              !IsRooted(member) && (Cleaned(member) == [] || !HasPrefix(Cleaned(member)[0], ".."))
    ensures MemberNames(cwd, dest, member).Some? ==>
              && AreNames(Cleaned(member))
              && Resolved(cwd, PathJoin(dest, Clean(member))) == Resolved(cwd, dest) + Cleaned(member)
  {
    CleanLeadsToTheSame(cwd, member);
    if !IsRooted(member) {
      SplitJoin(member, '/');
      RelativeWalkHasNoSeparator(Split(member, '/'));
      if Cleaned(member) != [] {
        assert IsName(Cleaned(member)[0]) || Cleaned(member)[0] == "..";
        PrefixOfJoin(Cleaned(member));
      }
      if Cleaned(member) == [] || !HasPrefix(Cleaned(member)[0], "..") {
        MemberIsPlaced(cwd, dest, member);
      }
    }
  }

  /** A joined path starts with two dots exactly when its first segment does. */
  lemma PrefixOfJoin(parts: seq<string>)
    requires parts != [] && parts[0] != ""
    ensures HasPrefix(Join(parts, '/'), "..") <==> HasPrefix(parts[0], "..")
  {
    var all := Join(parts, '/');
    assert |parts| > 1 && |parts[0]| == 1 ==> all[1] == '/';
  }
}
