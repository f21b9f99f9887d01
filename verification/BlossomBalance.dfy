/**
 When the local Blossom store's counter is right in every run: the exact condition
 on the opening directory and on what may be uploaded.
 */
module BlossomBalance {
  import opened Outcome
  import opened Text
  import opened MapSum
  import opened BlossomMachine
  import opened Blossom

  // ---- What can stand under a name ----

  predicate FitsQuota(cfg: Config, body: string) { cfg.quota > 0 ==> |body| <= cfg.quota }

  /** A body someone may upload under a name, and the quota can hold. */
  ghost predicate CanCome(cfg: Config, digest: string -> string, bodies: iset<string>, name: string, body: string) {
    body in bodies && Admits(cfg, digest, name, body, true) && FitsQuota(cfg, body)
  }

  /** What can ever be the contents of a name: the file there at the start, and what may come unless a directory is in the way. */
  ghost predicate CanStand(
      cfg: Config, digest: string -> string, bodies: iset<string>, disk: map<string, Entry>, name: string, body: string)
  {
    if name in disk
    then disk[name].File? && (disk[name].body == body || CanCome(cfg, digest, bodies, name, body))
    else CanCome(cfg, digest, bodies, name, body)
  }

  /** All contents that can stand under one name have one length. */
  ghost predicate OneLengthEach(cfg: Config, digest: string -> string, bodies: iset<string>, disk: map<string, Entry>) {
    forall n, a, b :: ValidSha(n) && CanStand(cfg, digest, bodies, disk, n, a) && CanStand(cfg, digest, bodies, disk, n, b)
      ==> |a| == |b|
  }

  ghost predicate Uploads(run: seq<Action>, bodies: iset<string>) {
    forall i :: 0 <= i < |run| && run[i].StartPut? ==> run[i].body in bodies
  }

  ghost predicate AlwaysBalanced(cfg: Config, digest: string -> string, bodies: iset<string>, disk: map<string, Entry>) {
    forall run :: Uploads(run, bodies) ==> Gap(Run(cfg, digest, Scanned(disk), run)) == 0
  }

  // ---- Enough ----

  predicate IsDirectory(disk: map<string, Entry>, n: string) { n in disk && disk[n].Directory? }

  ghost predicate HasLength(
      cfg: Config, digest: string -> string, bodies: iset<string>, disk: map<string, Entry>, n: string, size: nat)
  {
    exists b :: CanStand(cfg, digest, bodies, disk, n, b) && |b| == size
  }

  /** Every call in flight speaks of contents that can stand under its name. */
  ghost predicate OpKnown(cfg: Config, digest: string -> string, bodies: iset<string>, disk0: map<string, Entry>, op: Op) {
    match op
    case PutReady(sha, body) => body in bodies && Admits(cfg, digest, sha, body, true)
    case PutAbsent(sha, body) => body in bodies && Admits(cfg, digest, sha, body, true)
    case PutCleared(sha, body) => CanCome(cfg, digest, bodies, sha, body)
    case PutWritten(_, _) => true
    case Sweeping(_, todo) => forall n :: n in todo ==> ValidSha(n)
    case SweepStale(_, todo, name, size) =>
      && (forall n :: n in todo ==> ValidSha(n))
      && ValidSha(name) && !IsDirectory(disk0, name) && HasLength(cfg, digest, bodies, disk0, name, size)
    case SweepOwing(_, todo, _) => forall n :: n in todo ==> ValidSha(n)
  }

  ghost predicate DiskKnown(
      cfg: Config, digest: string -> string, bodies: iset<string>, disk0: map<string, Entry>, disk: map<string, Entry>)
  {
    && (forall n :: IsDirectory(disk, n) <==> IsDirectory(disk0, n))
    && (forall n :: n in disk && IsBlob(n, disk[n]) ==> CanStand(cfg, digest, bodies, disk0, n, disk[n].body))
  }

  ghost predicate Known(cfg: Config, digest: string -> string, bodies: iset<string>, disk0: map<string, Entry>, s: Store) {
    && DiskKnown(cfg, digest, bodies, disk0, s.disk)
    && forall t :: t in s.ops ==> OpKnown(cfg, digest, bodies, disk0, s.ops[t])
  }

  lemma DiskStaysKnown(
      cfg: Config, digest: string -> string, bodies: iset<string>, disk0: map<string, Entry>, s: Store, a: Action)
    requires Disciplined(cfg, s) && Known(cfg, digest, bodies, disk0, s)
    ensures DiskKnown(cfg, digest, bodies, disk0, Step(cfg, digest, s, a).disk)
  {
    if a.Write? && a.t in s.ops && s.ops[a.t].PutCleared? {
      assert OpKnown(cfg, digest, bodies, disk0, s.ops[a.t]) && !IsDirectory(s.disk, s.ops[a.t].sha);
      assert CanStand(cfg, digest, bodies, disk0, s.ops[a.t].sha, s.ops[a.t].body);
    }
    if a.Remove? && a.t in s.ops && s.ops[a.t].SweepStale? {
      assert OpKnown(cfg, digest, bodies, disk0, s.ops[a.t]) && !IsDirectory(s.disk, s.ops[a.t].name);
    }
  }

  lemma OwnOpStaysKnown(
      cfg: Config, digest: string -> string, bodies: iset<string>, disk0: map<string, Entry>, s: Store, a: Action)
    requires Known(cfg, digest, bodies, disk0, s) && 0 <= s.used
    requires a.StartPut? ==> a.body in bodies
    requires a.t in Step(cfg, digest, s, a).ops
    ensures OpKnown(cfg, digest, bodies, disk0, Step(cfg, digest, s, a).ops[a.t])
  {
    var op' := Step(cfg, digest, s, a).ops[a.t];
    if a.t in s.ops {
      assert OpKnown(cfg, digest, bodies, disk0, s.ops[a.t]);
      if a.StatNext? && op'.SweepStale? && s.ops[a.t].Sweeping? {
        assert CanStand(cfg, digest, bodies, disk0, op'.name, s.disk[op'.name].body);
        assert !IsDirectory(s.disk, op'.name);
      }
    } else if a.StartSweep? {
      BlobNamesValid(s.disk, a.listing);
    }
  }

  lemma StepKnown(
      cfg: Config, digest: string -> string, bodies: iset<string>, disk0: map<string, Entry>, s: Store, a: Action)
    requires Disciplined(cfg, s) && Known(cfg, digest, bodies, disk0, s) && 0 <= s.used
    requires a.StartPut? ==> a.body in bodies
    ensures Known(cfg, digest, bodies, disk0, Step(cfg, digest, s, a))
  {
    var s' := Step(cfg, digest, s, a);
    DiskStaysKnown(cfg, digest, bodies, disk0, s, a);
    forall t | t in s'.ops
      ensures OpKnown(cfg, digest, bodies, disk0, s'.ops[t])
    {
      if t == a.t {
        OwnOpStaysKnown(cfg, digest, bodies, disk0, s, a);
      } else {
        StepLeavesOthers(cfg, digest, s, a, t);
      }
    }
  }

  /** With one length for each name a debit cannot be wrong. */
  lemma KnownDebitsAreRight(
      cfg: Config, digest: string -> string, bodies: iset<string>, disk0: map<string, Entry>, s: Store, a: Action)
    requires Known(cfg, digest, bodies, disk0, s) && OneLengthEach(cfg, digest, bodies, disk0)
    ensures Misdebit(s, a) == 0
  {
    if a.Remove? && a.t in s.ops && s.ops[a.t].SweepStale? && s.ops[a.t].name in s.disk {
      var name, size := s.ops[a.t].name, s.ops[a.t].size;
      assert OpKnown(cfg, digest, bodies, disk0, s.ops[a.t]);
      var b :| CanStand(cfg, digest, bodies, disk0, name, b) && |b| == size;
      assert !IsDirectory(s.disk, name);
      assert CanStand(cfg, digest, bodies, disk0, name, s.disk[name].body);
    }
  }

  lemma {:induction false} RunKnown(
      cfg: Config, digest: string -> string, bodies: iset<string>, disk: map<string, Entry>, run: seq<Action>)
    requires OneLengthEach(cfg, digest, bodies, disk) && Uploads(run, bodies)
    ensures Known(cfg, digest, bodies, disk, Run(cfg, digest, Scanned(disk), run))
    ensures TotalMisdebit(cfg, digest, Scanned(disk), run) == 0
    ensures 0 <= Run(cfg, digest, Scanned(disk), run).used
  {
    if run == [] {
      BlobBytesNonNegative(disk);
    } else {
      var before, a := run[..|run| - 1], run[|run| - 1];
      RunKnown(cfg, digest, bodies, disk, before);
      RunBalance(cfg, digest, disk, before);
      var s := Run(cfg, digest, Scanned(disk), before);
      StepKnown(cfg, digest, bodies, disk, s, a);
      KnownDebitsAreRight(cfg, digest, bodies, disk, s, a);
      StepNonNegative(cfg, digest, s, a);
    }
  }

  ghost predicate NoSweep(s: Store) { forall t :: t in s.ops ==> !IsSweep(s.ops[t]) }

  /** Without retention no call is a Sweep. */
  lemma {:induction false} NoRetentionNoMisdebit(cfg: Config, digest: string -> string, disk: map<string, Entry>, run: seq<Action>)
    requires cfg.retain <= 0
    ensures NoSweep(Run(cfg, digest, Scanned(disk), run))
    ensures TotalMisdebit(cfg, digest, Scanned(disk), run) == 0
  {
    if run != [] {
      var before := run[..|run| - 1];
      NoRetentionNoMisdebit(cfg, digest, disk, before);
      StepNoSweep(cfg, digest, Run(cfg, digest, Scanned(disk), before), run[|run| - 1]);
    }
  }

  lemma StepNoSweep(cfg: Config, digest: string -> string, s: Store, a: Action)
    requires cfg.retain <= 0 && NoSweep(s)
    ensures NoSweep(Step(cfg, digest, s, a)) && Misdebit(s, a) == 0
  {}

  lemma NeverMisdebits(
      cfg: Config, digest: string -> string, bodies: iset<string>, disk: map<string, Entry>, run: seq<Action>)
    requires (cfg.retain <= 0 || OneLengthEach(cfg, digest, bodies, disk)) && Uploads(run, bodies)
    ensures NeverMisdebited(cfg, digest, Scanned(disk), run)
  {
    forall k | 0 <= k <= |run|
      ensures TotalMisdebit(cfg, digest, Scanned(disk), run[..k]) == 0
    {
      if cfg.retain <= 0 {
        NoRetentionNoMisdebit(cfg, digest, disk, run[..k]);
      } else {
        RunKnown(cfg, digest, bodies, disk, run[..k]);
      }
    }
  }

  /**
   The store's contract over every interleaving of any number of calls: it is
   accounted for when there is no retention, or one length for each name.
   */
  lemma StoreIsAccountedFor(
      cfg: Config, digest: string -> string, bodies: iset<string>, disk: map<string, Entry>, run: seq<Action>)
    requires (cfg.retain <= 0 || OneLengthEach(cfg, digest, bodies, disk)) && Uploads(run, bodies)
    ensures Accounted(cfg, BlobBytes(disk), Run(cfg, digest, Scanned(disk), run))
  {
    NeverMisdebits(cfg, digest, bodies, disk, run);
    RunIsAccountedFor(cfg, digest, disk, run);
  }

  // ---- Contents ----

  ghost predicate NamesMatch(digest: string -> string, disk: map<string, Entry>) {
    forall n :: n in disk && IsBlob(n, disk[n]) ==> digest(disk[n].body) == n
  }

  /** Bodies with one digest have one length, among the bodies at hand. */
  ghost predicate NoLengthClash(digest: string -> string, bodies: iset<string>) {
    forall a, b :: a in bodies && b in bodies && digest(a) == digest(b) ==> |a| == |b|
  }

  /** Content addressing is enough: files that are what their names say, and no clash on lengths. */
  lemma ContentAddressedHasOneLength(cfg: Config, digest: string -> string, bodies: iset<string>, disk: map<string, Entry>)
    requires NamesMatch(digest, disk) && NoLengthClash(digest, bodies)
    requires forall n :: n in disk && IsBlob(n, disk[n]) ==> disk[n].body in bodies
    ensures OneLengthEach(cfg, digest, bodies, disk)
  {}

  ghost predicate PutsMatch(digest: string -> string, s: Store) {
    forall t :: t in s.ops && IsPut(s.ops[t]) ==> digest(s.ops[t].body) == s.ops[t].sha
  }

  /** Whatever the interleaving and the digest, no run makes a blob's name untrue. */
  lemma {:induction false} NamesStayTrue(cfg: Config, digest: string -> string, disk: map<string, Entry>, run: seq<Action>)
    requires NamesMatch(digest, disk)
    ensures NamesMatch(digest, Run(cfg, digest, Scanned(disk), run).disk)
    ensures PutsMatch(digest, Run(cfg, digest, Scanned(disk), run))
  {
    if run != [] {
      var before := run[..|run| - 1];
      NamesStayTrue(cfg, digest, disk, before);
      StepStaysTrue(cfg, digest, Run(cfg, digest, Scanned(disk), before), run[|run| - 1]);
    }
  }

  lemma StepStaysTrue(cfg: Config, digest: string -> string, s: Store, a: Action)
    requires NamesMatch(digest, s.disk) && PutsMatch(digest, s)
    ensures NamesMatch(digest, Step(cfg, digest, s, a).disk) && PutsMatch(digest, Step(cfg, digest, s, a))
  {}

  // ---- Needed ----

  lemma {:induction false} ListingExists(names: set<string>) returns (listing: seq<string>)
    ensures Distinct(listing) && forall n :: n in listing <==> n in names
  {
    if names == {} {
      listing := [];
    } else {
      var n :| n in names;
      var rest := ListingExists(names - {n});
      listing := [n] + rest;
    }
  }

  lemma {:induction false} TimeAfterAll(disk: map<string, Entry>) returns (now: int)
    ensures forall n :: n in disk && disk[n].File? ==> disk[n].mtime < now
    decreases |disk|
  {
    if disk == map[] {
      now := 0;
    } else {
      var n :| n in disk;
      var later := TimeAfterAll(disk - {n});
      now := if disk[n].File? then Max(later, disk[n].mtime + 1) else later;
      assert forall k :: k in disk ==> k == n || k in disk - {n};
    }
  }

  /** No blob but at `n`. */
  ghost predicate OnlyAt(disk: map<string, Entry>, n: string) { forall k :: k in disk && k != n ==> !IsBlob(k, disk[k]) }

  lemma BytesOnlyAt(disk: map<string, Entry>, n: string)
    requires OnlyAt(disk, n)
    ensures BlobBytes(disk - {n}) == 0
    ensures BlobBytes(disk) == if n in disk then BlobSize(n, disk[n]) else 0
  {
    SumOfZeros(BlobSizes(disk - {n}));
    if n in disk { BlobBytesDrop(disk, n); } else { assert disk - {n} == disk; }
  }

  ghost predicate NoUpload(run: seq<Action>) { forall i :: 0 <= i < |run| ==> !run[i].StartPut? }

  lemma {:induction false} SweepsUploadNothing(disk: map<string, Entry>, listing: seq<string>, stuck: set<string>)
    ensures NoUpload(SweepEach(disk, listing, stuck))
  {
    if listing != [] { SweepsUploadNothing(disk, listing[1..], stuck); }
  }

  /** A Sweep of everything but one name leaves no other blob, and the right count. */
  lemma ClearOthers(cfg: Config, digest: string -> string, disk: map<string, Entry>, n: string)
    returns (run: seq<Action>, d: map<string, Entry>)
    requires cfg.retain > 0
    ensures NoUpload(run) && Run(cfg, digest, Scanned(disk), run) == Idle(d, BlobBytes(d))
    ensures OnlyAt(d, n) && (n in d <==> n in disk) && (n in d ==> d[n] == disk[n])
  {
    var listing := ListingExists(disk.Keys);
    var now := TimeAfterAll(disk);
    var at := now + cfg.retain;
    SoloSweep(cfg, digest, disk, BlobBytes(disk), at, listing, {n});
    SweepsUploadNothing(disk, listing, {n});
    run := SweepSchedule(disk, at, listing, {n});
    d := disk - Expired(cfg, disk, at, {n});
  }

  function BothSweepsStart(n: string, now: int): seq<Action> {
    [StartSweep(1, now, [n]), StatNext(1, true), StartSweep(2, now, [n]), StatNext(2, true)]
  }

  function OneRemoves(): seq<Action> { [Remove(2, true), Debit(2)] }

  lemma SweepsStart(cfg: Config, digest: string -> string, disk: map<string, Entry>, used: int, n: string, now: int)
    requires n in disk && IsBlob(n, disk[n]) && cfg.retain > 0 && disk[n].mtime < now - cfg.retain
    ensures var stale := SweepStale(now - cfg.retain, [], n, |disk[n].body|);
            Run(cfg, digest, Idle(disk, used), BothSweepsStart(n, now))
            == Store(disk, used, None, map[1 := stale, 2 := stale])
  {
    var cutoff := now - cfg.retain;
    var stale, listed := SweepStale(cutoff, [], n, |disk[n].body|), Sweeping(cutoff, [n]);
    assert BlobNames(disk, [n]) == [n];
    TraceIsRun(cfg, digest,
               [Store(disk, used, None, map[]),
                Store(disk, used, None, map[1 := listed]),
                Store(disk, used, None, map[1 := stale]),
                Store(disk, used, None, map[1 := stale, 2 := listed]),
                Store(disk, used, None, map[1 := stale, 2 := stale])],
               BothSweepsStart(n, now));
  }

  lemma OneSweepRemoves(
      cfg: Config, digest: string -> string, disk: map<string, Entry>, used: int, n: string, cutoff: int, size: nat)
    requires n in disk
    ensures var stale := SweepStale(cutoff, [], n, size);
            Run(cfg, digest, Store(disk, used, None, map[1 := stale, 2 := stale]), OneRemoves())
            == Store(disk - {n}, used - size, None, map[1 := stale, 2 := Sweeping(cutoff, [])])
  {
    var stale := SweepStale(cutoff, [], n, size);
    TraceIsRun(cfg, digest,
               [Store(disk, used, None, map[1 := stale, 2 := stale]),
                Store(disk - {n}, used, None, map[1 := stale, 2 := SweepOwing(cutoff, [], size)]),
                Store(disk - {n}, used - size, None, map[1 := stale, 2 := Sweeping(cutoff, [])])],
               OneRemoves());
  }

  function Clash(n: string, body: string, now: int): seq<Action> {
    BothSweepsStart(n, now) + OneRemoves() + PutSchedule(3, n, body, true, now, true)
  }

  lemma PutWhileSwept(cfg: Config, digest: string -> string, s: Store, n: string, body: string, now: int)
    requires s.lock.None? && 3 !in s.ops && n !in s.disk
    requires Admits(cfg, digest, n, body, true) && WithinQuota(cfg, s.used, body)
    ensures Run(cfg, digest, s, PutSchedule(3, n, body, true, now, true))
         == s.(disk := s.disk[n := File(body, now)], used := s.used + |body|)
  {
    SoloPut(cfg, digest, s, 3, n, body, true, now, true);
  }

  /** Two Sweeps take up one stale file, one removes it, and a Put stores other contents under its name. */
  lemma ClashRuns(
      cfg: Config, digest: string -> string, disk: map<string, Entry>, used: int, n: string, body: string, now: int)
    requires n in disk && IsBlob(n, disk[n]) && cfg.retain > 0 && disk[n].mtime < now - cfg.retain
    requires Admits(cfg, digest, n, body, true) && WithinQuota(cfg, used - |disk[n].body|, body)
    ensures var size := |disk[n].body|;
            Run(cfg, digest, Idle(disk, used), Clash(n, body, now))
            == Store(disk[n := File(body, now)], used - size + |body|, None,
                     map[1 := SweepStale(now - cfg.retain, [], n, size), 2 := Sweeping(now - cfg.retain, [])])
  {
    var size, cutoff := |disk[n].body|, now - cfg.retain;
    var s := Store(disk - {n}, used - size, None, map[1 := SweepStale(cutoff, [], n, size), 2 := Sweeping(cutoff, [])]);
    SweepsStart(cfg, digest, disk, used, n, now);
    OneSweepRemoves(cfg, digest, disk, used, n, cutoff, size);
    RunConcat(cfg, digest, Idle(disk, used), BothSweepsStart(n, now), OneRemoves());
    PutWhileSwept(cfg, digest, s, n, body, now);
    RunConcat(cfg, digest, Idle(disk, used), BothSweepsStart(n, now) + OneRemoves(), PutSchedule(3, n, body, true, now, true));
    assert (disk - {n})[n := File(body, now)] == disk[n := File(body, now)];
  }

  lemma {:induction false} RunStaysDisciplined(cfg: Config, digest: string -> string, s: Store, run: seq<Action>)
    requires Disciplined(cfg, s)
    ensures Disciplined(cfg, Run(cfg, digest, s, run))
  {
    if run != [] {
      var before := run[..|run| - 1];
      RunStaysDisciplined(cfg, digest, s, before);
      StepDisciplined(cfg, digest, Run(cfg, digest, s, before), run[|run| - 1]);
    }
  }

  /** After such a clash, before the second Sweep removes or after, the account is off by the difference. */
  lemma ClashUnbalances(
      cfg: Config, digest: string -> string, bodies: iset<string>, disk: map<string, Entry>, n: string, body: string)
    returns (run: seq<Action>)
    requires cfg.retain > 0 && n in disk && IsBlob(n, disk[n]) && OnlyAt(disk, n)
    requires CanCome(cfg, digest, bodies, n, body) && |body| != |disk[n].body|
    ensures Uploads(run, bodies) && Gap(Run(cfg, digest, Idle(disk, BlobBytes(disk)), run)) != 0
  {
    var start, now := Idle(disk, BlobBytes(disk)), disk[n].mtime + cfg.retain + 1;
    BytesOnlyAt(disk, n);
    ClashRuns(cfg, digest, disk, BlobBytes(disk), n, body, now);
    run := Clash(n, body, now);
    ClashUploads(n, body, now, bodies);
    RunStaysDisciplined(cfg, digest, start, run);
    var s := Run(cfg, digest, start, run);
    if Gap(s) == 0 {
      ClashMisdebits(s, n, body, |disk[n].body|);
      StepBalance(cfg, digest, s, Remove(1, true));
      RunAndRemove(cfg, digest, start, run, bodies);
      run := run + [Remove(1, true)];
    }
  }

  /** The second Sweep's removal takes the new body, and will debit the size of the old. */
  lemma ClashMisdebits(s: Store, n: string, body: string, size: nat)
    requires ValidSha(n) && n in s.disk && s.disk[n].File? && s.disk[n].body == body
    requires 1 in s.ops && s.ops[1].SweepStale? && s.ops[1].name == n && s.ops[1].size == size
    ensures Misdebit(s, Remove(1, true)) == |body| - size
  {}

  lemma RunAndRemove(cfg: Config, digest: string -> string, start: Store, run: seq<Action>, bodies: iset<string>)
    requires Uploads(run, bodies)
    ensures Run(cfg, digest, start, run + [Remove(1, true)]) == Step(cfg, digest, Run(cfg, digest, start, run), Remove(1, true))
    ensures Uploads(run + [Remove(1, true)], bodies)
  {
    assert (run + [Remove(1, true)])[..|run|] == run;
  }

  lemma ClashUploads(n: string, body: string, now: int, bodies: iset<string>)
    requires body in bodies
    ensures Uploads(Clash(n, body, now), bodies)
  {}

  lemma UploadsConcat(a: seq<Action>, b: seq<Action>, bodies: iset<string>)
    requires Uploads(a, bodies) && Uploads(b, bodies)
    ensures Uploads(a + b, bodies)
  {}

  /** A body standing where another length can come unbalances some run. */
  lemma StandingUnbalances(
      cfg: Config, digest: string -> string, bodies: iset<string>, disk: map<string, Entry>, n: string, body: string)
    returns (run: seq<Action>)
    requires cfg.retain > 0 && n in disk && IsBlob(n, disk[n])
    requires CanCome(cfg, digest, bodies, n, body) && |body| != |disk[n].body|
    ensures Uploads(run, bodies) && Gap(Run(cfg, digest, Scanned(disk), run)) != 0
  {
    var clear, d := ClearOthers(cfg, digest, disk, n);
    var clash := ClashUnbalances(cfg, digest, bodies, d, n, body);
    run := clear + clash;
    UploadsConcat(clear, clash, bodies);
    RunConcat(cfg, digest, Scanned(disk), clear, clash);
  }

  /** So do two bodies of different lengths that can come where nothing stands. */
  lemma ComingUnbalances(
      cfg: Config, digest: string -> string, bodies: iset<string>, disk: map<string, Entry>,
      n: string, first: string, second: string)
    returns (run: seq<Action>)
    requires cfg.retain > 0 && n !in disk && |first| != |second|
    requires CanCome(cfg, digest, bodies, n, first) && CanCome(cfg, digest, bodies, n, second)
    ensures Uploads(run, bodies) && Gap(Run(cfg, digest, Scanned(disk), run)) != 0
  {
    var clear, d := ClearOthers(cfg, digest, disk, n);
    var d', put := FirstComes(cfg, digest, bodies, d, n, first);
    var clash := ClashUnbalances(cfg, digest, bodies, d', n, second);
    run := clear + (put + clash);
    UploadsConcat(put, clash, bodies);
    UploadsConcat(clear, put + clash, bodies);
    RunConcat(cfg, digest, Idle(d, 0), put, clash);
    RunConcat(cfg, digest, Scanned(disk), clear, put + clash);
  }

  lemma FirstComes(
      cfg: Config, digest: string -> string, bodies: iset<string>, d: map<string, Entry>, n: string, body: string)
    returns (d': map<string, Entry>, put: seq<Action>)
    requires OnlyAt(d, n) && n !in d && CanCome(cfg, digest, bodies, n, body)
    ensures BlobBytes(d) == 0 && Uploads(put, bodies) && Run(cfg, digest, Idle(d, 0), put) == Idle(d', BlobBytes(d'))
    ensures d' == d[n := File(body, 0)] && IsBlob(n, d'[n]) && OnlyAt(d', n)
  {
    d', put := d[n := File(body, 0)], PutSchedule(0, n, body, true, 0, true);
    BytesOnlyAt(d, n);
    BytesOnlyAt(d', n);
    SoloPut(cfg, digest, Idle(d, 0), 0, n, body, true, 0, true);
  }

  lemma TwoLengthsUnbalance(
      cfg: Config, digest: string -> string, bodies: iset<string>, disk: map<string, Entry>, n: string, a: string, b: string)
    returns (run: seq<Action>)
    requires cfg.retain > 0 && ValidSha(n) && |a| != |b|
    requires CanStand(cfg, digest, bodies, disk, n, a) && CanStand(cfg, digest, bodies, disk, n, b)
    ensures Uploads(run, bodies) && Gap(Run(cfg, digest, Scanned(disk), run)) != 0
  {
    if n in disk {
      run := StandingUnbalances(cfg, digest, bodies, disk, n, if |a| != |disk[n].body| then a else b);
    } else {
      run := ComingUnbalances(cfg, digest, bodies, disk, n, a, b);
    }
  }

  /**
   The counter is right in every state of every run if and only if there is no
   retention, or all contents that can stand under a name have one length.
   */
  lemma BalancedExactly(cfg: Config, digest: string -> string, bodies: iset<string>, disk: map<string, Entry>)
    ensures AlwaysBalanced(cfg, digest, bodies, disk)
       <==> cfg.retain <= 0 || OneLengthEach(cfg, digest, bodies, disk)
  {
    if cfg.retain <= 0 || OneLengthEach(cfg, digest, bodies, disk) {
      forall run | Uploads(run, bodies)
        ensures Gap(Run(cfg, digest, Scanned(disk), run)) == 0
      {
        StoreIsAccountedFor(cfg, digest, bodies, disk, run);
      }
    } else {
      var n, a, b :| ValidSha(n) && CanStand(cfg, digest, bodies, disk, n, a)
                     && CanStand(cfg, digest, bodies, disk, n, b) && |a| != |b|;
      var run := TwoLengthsUnbalance(cfg, digest, bodies, disk, n, a, b);
    }
  }

  /**
   How far off: two Sweeps take up a stale five-byte file that has the name of the
   digest of one byte; one removes it, a Put stores that byte, and the other Sweep
   removes the fresh byte and debits five, whatever the digest.
   */
  lemma TwoSweepsCanOverdraw(digest: string -> string, name: string)
    requires ValidSha(name) && digest("x") == name
    ensures var s := Run(Config(100, 0, 1), digest, Scanned(map[name := File("abcde", 0)]),
                         Clash(name, "x", 10) + [Remove(1, true), Debit(1)]);
            s.used == -4 && s.disk == map[]
  {
    var cfg, disk := Config(100, 0, 1), map[name := File("abcde", 0)];
    FiveThenOne(digest, name);
    OtherRemoves(cfg, digest, name);
    RunConcat(cfg, digest, Scanned(disk), Clash(name, "x", 10), [Remove(1, true), Debit(1)]);
  }

  lemma FiveThenOne(digest: string -> string, name: string)
    requires ValidSha(name) && digest("x") == name
    ensures Run(Config(100, 0, 1), digest, Scanned(map[name := File("abcde", 0)]), Clash(name, "x", 10))
         == Store(map[name := File("x", 10)], 1, None, map[1 := SweepStale(9, [], name, 5), 2 := Sweeping(9, [])])
  {
    var disk := map[name := File("abcde", 0)];
    BytesOnlyAt(disk, name);
    ClashRuns(Config(100, 0, 1), digest, disk, 5, name, "x", 10);
  }

  lemma OtherRemoves(cfg: Config, digest: string -> string, name: string)
    ensures Run(cfg, digest,
                Store(map[name := File("x", 10)], 1, None, map[1 := SweepStale(9, [], name, 5), 2 := Sweeping(9, [])]),
                [Remove(1, true), Debit(1)])
         == Store(map[], -4, None, map[1 := Sweeping(9, []), 2 := Sweeping(9, [])])
  {
    TraceIsRun(cfg, digest,
               [Store(map[name := File("x", 10)], 1, None, map[1 := SweepStale(9, [], name, 5), 2 := Sweeping(9, [])]),
                Store(map[], 1, None, map[1 := SweepOwing(9, [], 5), 2 := Sweeping(9, [])]),
                Store(map[], -4, None, map[1 := Sweeping(9, []), 2 := Sweeping(9, [])])],
               [Remove(1, true), Debit(1)]);
  }
}
