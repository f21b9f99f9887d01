/**
 Unpacking an npk archive into the content-addressed bundle store, and reading a
 bundle. The file system is the map from resolved names to file contents.
 */
module Bundles {
  import opened Outcome
  import opened Text
  import opened BundlePath
  import N = Npk

  type Files = map<seq<string>, string>

  /** A tar member; `ok` tells whether the file operations it calls for succeed. */
  datatype Kind = Dir(ok: bool) | Regular(body: string, ok: bool) | Special | Skipped

  datatype Member = Member(name: string, kind: Kind)

  /** What the tar reader yields: members, then the end or a read error. */
  datatype Archive = Archive(members: seq<Member>, broken: bool)

  datatype Extraction = Extraction(fs: Files, ok: bool)

  /** One turn of extractTar's loop. A failing write leaves whatever it wrote. */
  function ExtractOne(fs: Files, cwd: string, dest: string, m: Member): Extraction {
    match MemberNames(cwd, dest, m.name)
    case None => Extraction(fs, false)
    case Some(_) =>
      match m.kind
      case Dir(ok) => Extraction(fs, ok)
      case Regular(body, ok) => Extraction(fs[Resolved(cwd, PathJoin(dest, Clean(m.name))) := body], ok)
      case Special => Extraction(fs, false)
      case Skipped => Extraction(fs, true)
  }

  /** extractTar: the first member that fails ends it. */
  function Extract(fs: Files, cwd: string, dest: string, members: seq<Member>, broken: bool): Extraction
    decreases |members|
  {
    if members == [] then Extraction(fs, !broken)
    else
      var e := ExtractOne(fs, cwd, dest, members[0]);
      if e.ok then Extract(e.fs, cwd, dest, members[1..], broken) else e
  }

  /** The files an archive holds, by cleaned name, the last member of a name winning. */
  function FilesOf(members: seq<Member>): Files {
    if members == [] then map[]
    else
      var init, m := FilesOf(members[..|members| - 1]), members[|members| - 1];
      if m.kind.Regular? then init[Cleaned(m.name) := m.kind.body] else init
  }

  predicate Below(at: seq<string>, p: seq<string>) { at <= p }

  function At(at: seq<string>, names: seq<string>): seq<string> { at + names }

  lemma AtIsBelow(at: seq<string>, names: seq<string>)
    ensures Below(at, At(at, names)) && At(at, names)[|at|..] == names
  {}

  lemma BelowIsAt(at: seq<string>, p: seq<string>)
    requires Below(at, p)
    ensures p == At(at, p[|at|..])
  {}

  /** Overlaying files at a directory. */
  ghost predicate Overlaid(before: Files, at: seq<string>, files: Files, after: Files) {
    forall names ::
      if names in files then At(at, names) in after && after[At(at, names)] == files[names]
      else (At(at, names) in after <==> At(at, names) in before)
           && (At(at, names) in after ==> after[At(at, names)] == before[At(at, names)])
  }

  ghost predicate SameAt(before: Files, after: Files, p: seq<string>) {
    (p in after <==> p in before) && (p in before ==> after[p] == before[p])
  }

  /** Only what lies below `at` differs. */
  ghost predicate SameOutside(before: Files, at: seq<string>, after: Files) {
    forall p :: !Below(at, p) ==> SameAt(before, after, p)
  }

  lemma {:induction false} FilesOfCons(m: Member, rest: seq<Member>)
    ensures FilesOf([m] + rest)
         == (if m.kind.Regular? then map[Cleaned(m.name) := m.kind.body] else map[]) + FilesOf(rest)
  {
    var all := [m] + rest;
    if rest == [] {
    } else {
      FilesOfCons(m, rest[..|rest| - 1]);
      assert all[..|all| - 1] == [m] + rest[..|rest| - 1];
    }
  }

  /** Extraction that succeeds lays out exactly the archive's files; one that fails has touched only the destination. */
  lemma {:induction false} ExtractLaysOutFiles(fs: Files, cwd: string, dest: string, members: seq<Member>, broken: bool)
    requires IsRooted(cwd) && dest != "" && Resolved(cwd, dest) != []
    ensures var e := Extract(fs, cwd, dest, members, broken);
            && SameOutside(fs, Resolved(cwd, dest), e.fs)
            && (e.ok ==> Overlaid(fs, Resolved(cwd, dest), FilesOf(members), e.fs))
    decreases |members|
  {
    if members != [] {
      var m, rest, at := members[0], members[1..], Resolved(cwd, dest);
      assert members == [m] + rest;
      FilesOfCons(m, rest);
      MembersAreConfined(cwd, dest, m.name);
      if MemberNames(cwd, dest, m.name).Some? && m.kind.Regular? {
        var names, body := Cleaned(m.name), m.kind.body;
        var p := At(at, names);
        ExtractLaysOutFiles(fs[p := body], cwd, dest, rest, broken);
        OverlayOne(fs, at, names, body, FilesOf(rest), Extract(fs, cwd, dest, members, broken).fs, m.kind.ok);
      } else {
        ExtractLaysOutFiles(fs, cwd, dest, rest, broken);
      }
    }
  }

  lemma OverlayOne(
      fs: Files, at: seq<string>, names: seq<string>, body: string, files: Files, after: Files, applies: bool)
    ensures applies && Overlaid(fs[At(at, names) := body], at, files, after) ==>
              Overlaid(fs, at, map[names := body] + files, after)
  {
    forall other
      ensures At(at, other) == At(at, names) ==> other == names
    {
      AtIsBelow(at, other);
    }
  }

  // ---- Unpack ----

  function WithoutTree(fs: Files, at: seq<string>): Files { map p | p in fs && !Below(at, p) :: fs[p] }

  /** Renaming a directory over a name with nothing below it. */
  function Renamed(fs: Files, from: seq<string>, to: seq<string>): Files {
    WithoutTree(fs, from) + map q | q in Moved(fs, from, to) :: fs[At(from, q[|to|..])]
  }

  function Moved(fs: Files, from: seq<string>, to: seq<string>): (moved: set<seq<string>>)
    ensures forall q :: q in moved ==> Below(to, q) && At(from, q[|to|..]) in fs
    ensures forall names :: At(to, names) in moved <==> At(from, names) in fs
  {
    var moved := set p | p in fs && Below(from, p) :: At(to, p[|from|..]);
    assert forall q :: q in moved ==> Below(to, q) && At(from, q[|to|..]) in fs by {
      forall q | q in moved
        ensures Below(to, q) && At(from, q[|to|..]) in fs
      {
        var p :| p in fs && Below(from, p) && q == At(to, p[|from|..]);
        AtIsBelow(to, p[|from|..]);
        BelowIsAt(from, p);
      }
    }
    assert forall names :: At(to, names) in moved <==> At(from, names) in fs by {
      forall names
        ensures At(to, names) in moved <==> At(from, names) in fs
      {
        AtIsBelow(from, names);
        AtIsBelow(to, names);
      }
    }
    moved
  }

  datatype UnpackResult = BadDigest | HashMismatch | NotAnArchive | ExtractFailed | RenameFailed | Unpacked

  datatype Unpacking = Unpacking(fs: Files, result: UnpackResult)

  /** The end of Unpack: an extracted tree at `at` takes the place of what is at `to`. */
  function Publish(e: Extraction, at: seq<string>, to: seq<string>, renames: bool): Unpacking {
    if !e.ok then Unpacking(WithoutTree(e.fs, at), ExtractFailed)
    else
      var room := WithoutTree(e.fs, to);
      if !renames then Unpacking(WithoutTree(room, at), RenameFailed)
      else Unpacking(Renamed(room, at, to), Unpacked)
  }

  /** Unpack, given what decompression and the tar reader make of the body. */
  function Unpack(
      fs: Files, cwd: string, dir: string, digest: string -> string,
      sha: string, body: string, archive: Option<Archive>, renames: bool): Unpacking
  {
    if !N.IsSHA256(sha) then Unpacking(fs, BadDigest)
    else if digest(body) != Lower(sha) then Unpacking(fs, HashMismatch)
    else
      var tmp := PathJoin(dir, sha + ".unpacking");
      var at := Resolved(cwd, tmp);
      var cleared := WithoutTree(fs, at);
      match archive
      case None => Unpacking(cleared, NotAnArchive)
      case Some(Archive(members, broken)) =>
        var e := Extract(cleared, cwd, tmp, members, broken);
        Publish(e, at, Resolved(cwd, PathJoin(dir, sha)), renames)
  }

  lemma ShaIsName(sha: string)
    requires N.IsSHA256(sha)
    ensures IsName(sha) && IsName(sha + ".unpacking")
  {}

  ghost predicate Apart(a: seq<string>, b: seq<string>) { forall p :: !(Below(a, p) && Below(b, p)) }

  /** The bundle's directory and its temporary one are siblings: nothing lies below both. */
  lemma SiblingsAreApart(base: seq<string>, a: string, b: string)
    requires a != b
    ensures Apart(base + [a], base + [b])
  {
    forall p
      ensures !(Below(base + [a], p) && Below(base + [b], p))
    {
      assert Below(base + [a], p) ==> |p| > |base| && p[|base|] == (base + [a])[|base|];
    }
  }

  /** Exactly `files` lie below `at`. */
  ghost predicate Holds(fs: Files, at: seq<string>, files: Files) {
    forall names :: (At(at, names) in fs <==> names in files) && (names in files ==> fs[At(at, names)] == files[names])
  }

  ghost predicate Empty(fs: Files, at: seq<string>) { forall p :: Below(at, p) ==> p !in fs }

  ghost predicate SameBelow(before: Files, at: seq<string>, after: Files) {
    forall p :: Below(at, p) ==> SameAt(before, after, p)
  }

  ghost predicate SameElsewhere(before: Files, a: seq<string>, b: seq<string>, after: Files) {
    forall p :: !Below(a, p) && !Below(b, p) ==> SameAt(before, after, p)
  }

  lemma RenamedAt(room: Files, at: seq<string>, to: seq<string>, names: seq<string>)
    requires Apart(at, to) && Empty(room, to)
    ensures At(to, names) in Renamed(room, at, to) <==> At(at, names) in room
    ensures At(at, names) in room ==> Renamed(room, at, to)[At(to, names)] == room[At(at, names)]
  {}

  lemma RenamedElsewhere(room: Files, at: seq<string>, to: seq<string>, p: seq<string>)
    requires Apart(at, to)
    ensures Below(at, p) ==> p !in Renamed(room, at, to)
    ensures !Below(at, p) && !Below(to, p) ==> SameAt(room, Renamed(room, at, to), p)
  {}

  lemma PublishedFiles(cleared: Files, at: seq<string>, to: seq<string>, files: Files, laid: Files)
    requires Apart(at, to) && Empty(cleared, at)
    requires Overlaid(cleared, at, files, laid) && SameOutside(cleared, at, laid)
    ensures var fs := Renamed(WithoutTree(laid, to), at, to);
            Holds(fs, to, files) && Empty(fs, at) && SameElsewhere(cleared, at, to, fs)
  {
    var room := WithoutTree(laid, to);
    forall names
      ensures At(to, names) in Renamed(room, at, to) <==> names in files
      ensures names in files ==> Renamed(room, at, to)[At(to, names)] == files[names]
    {
      AtIsBelow(at, names);
      RenamedAt(room, at, to, names);
    }
    forall p
      ensures Below(at, p) ==> p !in Renamed(room, at, to)
      ensures !Below(at, p) && !Below(to, p) ==> SameAt(room, Renamed(room, at, to), p)
    {
      RenamedElsewhere(room, at, to, p);
    }
  }

  lemma PublishesWhole(
      fs: Files, at: seq<string>, to: seq<string>, e: Extraction, files: Files, renames: bool)
    requires Apart(at, to) && SameOutside(WithoutTree(fs, at), at, e.fs)
    requires e.ok ==> Overlaid(WithoutTree(fs, at), at, files, e.fs)
    ensures var u := Publish(e, at, to, renames);
            && (u.result == Unpacked ==> Holds(u.fs, to, files))
            && (u.result != Unpacked && u.result != RenameFailed ==> SameBelow(fs, to, u.fs))
            && SameElsewhere(fs, at, to, u.fs) && Empty(u.fs, at)
  {
    var cleared := WithoutTree(fs, at);
    if e.ok && renames {
      PublishedFiles(cleared, at, to, files, e.fs);
    }
  }

  /**
   Unpack publishes the archive whole or not at all. Success leaves under the
   bundle's name exactly the archive's files, from bytes that hash to the name;
   any failure but that of the final rename leaves the old bundle as it was; and
   nothing else in the file system changes, save that the temporary tree is gone.
   */
  lemma UnpackPublishesWhole(
      fs: Files, cwd: string, dir: string, digest: string -> string,
      sha: string, body: string, archive: Option<Archive>, renames: bool)
    requires IsRooted(cwd) && dir != "" && N.IsSHA256(sha)
    ensures var u := Unpack(fs, cwd, dir, digest, sha, body, archive, renames);
            var to, at := Resolved(cwd, dir) + [sha], Resolved(cwd, dir) + [sha + ".unpacking"];
            && (u.result == Unpacked ==>
                  (digest(body) == Lower(sha) && archive.Some? && Holds(u.fs, to, FilesOf(archive.value.members))))
            && (u.result != Unpacked && u.result != RenameFailed ==> SameBelow(fs, to, u.fs))
            && SameElsewhere(fs, at, to, u.fs)
            && (digest(body) == Lower(sha) ==> Empty(u.fs, at))
  {
    if digest(body) == Lower(sha) {
      var base := Resolved(cwd, dir);
      ShaIsName(sha);
      BundleDir(cwd, dir, sha + ".unpacking");
      SiblingsAreApart(base, sha + ".unpacking", sha);
      if archive.Some? { UnpackArchive(fs, cwd, dir, digest, sha, body, archive.value, renames); }
    }
  }

  lemma UnpackArchive(
      fs: Files, cwd: string, dir: string, digest: string -> string,
      sha: string, body: string, archive: Archive, renames: bool)
    requires IsRooted(cwd) && dir != "" && N.IsSHA256(sha) && digest(body) == Lower(sha)
    ensures var u := Unpack(fs, cwd, dir, digest, sha, body, Some(archive), renames);
            var to, at := Resolved(cwd, dir) + [sha], Resolved(cwd, dir) + [sha + ".unpacking"];
            && (u.result == Unpacked ==> Holds(u.fs, to, FilesOf(archive.members)))
            && (u.result != Unpacked && u.result != RenameFailed ==> SameBelow(fs, to, u.fs))
            && SameElsewhere(fs, at, to, u.fs) && Empty(u.fs, at)
  {
    var base, tmp := Resolved(cwd, dir), PathJoin(dir, sha + ".unpacking");
    var at, to := base + [sha + ".unpacking"], base + [sha];
    ShaIsName(sha);
    BundleDir(cwd, dir, sha);
    BundleDir(cwd, dir, sha + ".unpacking");
    SiblingsAreApart(base, sha + ".unpacking", sha);
    ExtractLaysOutFiles(WithoutTree(fs, at), cwd, tmp, archive.members, archive.broken);
    var e := Extract(WithoutTree(fs, at), cwd, tmp, archive.members, archive.broken);
    PublishesWhole(fs, at, to, e, FilesOf(archive.members), renames);
    assert Unpack(fs, cwd, dir, digest, sha, body, Some(archive), renames) == Publish(e, at, to, renames);
  }

  // ---- The store ----

  class BundleStore {
    const cwd: string
    const dir: string
    const digest: string -> string
    const decode: string -> Option<Archive>
    var fs: Files

    /** A working directory is rooted, and no store is made over an empty path. */
    predicate IsMade() { IsRooted(cwd) && dir != "" }

    constructor (cwd: string, dir: string, digest: string -> string, decode: string -> Option<Archive>, fs: Files)
      requires IsRooted(cwd) && dir != ""
      ensures IsMade()
      ensures this.cwd == cwd && this.dir == dir && this.digest == digest && this.decode == decode && this.fs == fs
    {
      this.cwd, this.dir, this.digest, this.decode, this.fs := cwd, dir, digest, decode, fs;
    }

    method Store(sha: string, body: string, renames: bool) returns (r: UnpackResult)
      modifies this`fs
      ensures Unpacking(fs, r) == Unpack(old(fs), cwd, dir, digest, sha, body, decode(body), renames)
    {
      if !N.IsSHA256(sha) { return BadDigest; }
      if digest(body) != Lower(sha) { return HashMismatch; }
      var tmp := PathJoin(dir, sha + ".unpacking");
      fs := WithoutTree(fs, Resolved(cwd, tmp));
      var archive := decode(body);
      if archive.None? {
        return NotAnArchive;
      }
      var ok := ExtractTar(archive.value, tmp);
      if !ok {
        fs := WithoutTree(fs, Resolved(cwd, tmp));
        return ExtractFailed;
      }
      var dest := PathJoin(dir, sha);
      fs := WithoutTree(fs, Resolved(cwd, dest));
      if !renames {
        fs := WithoutTree(fs, Resolved(cwd, tmp));
        return RenameFailed;
      }
      fs := Renamed(fs, Resolved(cwd, tmp), Resolved(cwd, dest));
      return Unpacked;
    }

    method ExtractTar(archive: Archive, dest: string) returns (ok: bool)
      modifies this`fs
      ensures Extraction(fs, ok) == Extract(old(fs), cwd, dest, archive.members, archive.broken)
    {
      var members := archive.members;
      ghost var end := Extract(fs, cwd, dest, members, archive.broken);
      for i := 0 to |members|
        invariant Extract(fs, cwd, dest, members[i..], archive.broken) == end
      {
        var written := ExtractMember(members[i], dest);
        if !written { return false; }
      }
      return !archive.broken;
    }

    /** The body of the loop over members. */
    method ExtractMember(m: Member, dest: string) returns (ok: bool)
      modifies this`fs
      ensures Extraction(fs, ok) == ExtractOne(old(fs), cwd, dest, m)
    {
      var name := Clean(m.name);
      if HasPrefix(name, "..") || IsRooted(name) { return false; }
      var target := PathJoin(dest, name);
      if !Within(cwd, dest, target) { return false; }
      match m.kind {
        case Dir(made) =>
          return made;
        case Regular(body, written) =>
          fs := fs[Resolved(cwd, target) := body];
          return written;
        case Special =>
          return false;
        case Skipped =>
          return true;
      }
    }

    /** Open, for any digest it is given: the store's callers give one of 64 digits, and then it is the bundle's directory. */
    method Open(sha: string, sitePath: string) returns (r: Option<string>)
      requires IsMade()
      ensures var at := Resolved(cwd, PathJoin(dir, sha));
              && (r.Some? <==> BundleRel(sitePath).Some? && at != [] && at + Names(Split(sitePath, '/')) in fs)
              && (r.Some? ==> r.value == fs[at + Names(Split(sitePath, '/'))])
      ensures N.IsSHA256(sha) ==> Resolved(cwd, PathJoin(dir, sha)) == Resolved(cwd, dir) + [sha]
    {
      var root := PathJoin(dir, sha);
      RootIsNotEmpty(dir, sha);
      if N.IsSHA256(sha) {
        ShaIsName(sha);
        BundleDir(cwd, dir, sha);
      }
      var rel := BundleRel(sitePath);
      if rel.None? { return None; }
      BundleRelExactly(sitePath);
      WithinExactly(cwd, root, rel.value);
      var target := PathJoin(root, rel.value);
      if !Within(cwd, root, target) { return None; }
      var at := Resolved(cwd, target);
      if at !in fs { return None; }
      return Some(fs[at]);
    }
  }

  lemma RootIsNotEmpty(dir: string, sha: string)
    requires dir != ""
    ensures PathJoin(dir, sha) != ""
  {
    CleanIsNotEmpty(dir);
    CleanIsNotEmpty(dir + "/" + sha);
  }
}
