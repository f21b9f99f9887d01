/**
 The local Blossom server as the object it is, one call at a time. Each method
 is tied to a run of the interleaved machine, and says what the call achieves.
 */
module Blossom {
  import opened Outcome
  import opened Text
  import opened MapSum
  import opened BlossomMachine

  /** A store with no call in flight. */
  function Idle(disk: map<string, Entry>, used: int): Store { Store(disk, used, None, map[]) }

  /** A directory listing names every entry once. */
  ghost predicate Lists(listing: seq<string>, disk: map<string, Entry>) {
    && (forall n :: n in listing <==> n in disk)
    && Distinct(listing)
  }

  predicate Stale(disk: map<string, Entry>, cutoff: int, stuck: set<string>, n: string) {
    n in disk && IsBlob(n, disk[n]) && disk[n].mtime < cutoff && n !in stuck
  }

  /** The blobs a Sweep at time `now` is due to remove and can. */
  function Expired(cfg: Config, disk: map<string, Entry>, now: int, stuck: set<string>): set<string> {
    if cfg.retain <= 0 then {} else set n | n in disk && Stale(disk, now - cfg.retain, stuck, n)
  }

  datatype Swept = Swept(disk: map<string, Entry>, used: int, removed: nat)

  function AfterOne(s: Swept, cutoff: int, stuck: set<string>, n: string): Swept {
    if Stale(s.disk, cutoff, stuck, n)
    then Swept(s.disk - {n}, s.used - |s.disk[n].body|, s.removed + 1)
    else s
  }

  /** What is left to do of a Sweep that has reached `listing`. */
  function SweepThrough(s: Swept, cutoff: int, stuck: set<string>, listing: seq<string>): Swept
    decreases |listing|
  {
    if listing == [] then s
    else SweepThrough(AfterOne(s, cutoff, stuck, listing[0]), cutoff, stuck, listing[1..])
  }

  function StaleIn(disk: map<string, Entry>, cutoff: int, stuck: set<string>, names: seq<string>): set<string> {
    set n | n in names && Stale(disk, cutoff, stuck, n)
  }

  lemma StaleInNext(disk: map<string, Entry>, cutoff: int, stuck: set<string>, n: string, rest: seq<string>)
    requires n !in rest
    ensures StaleIn(disk - {n}, cutoff, stuck, rest) == StaleIn(disk, cutoff, stuck, rest)
    ensures StaleIn(disk, cutoff, stuck, [n] + rest)
         == StaleIn(disk, cutoff, stuck, rest) + if Stale(disk, cutoff, stuck, n) then {n} else {}
  {}

  /** A Sweep takes away exactly the stale blobs of its listing, their bytes and their count. */
  lemma {:induction false} SweepThroughRemovesStale(s: Swept, cutoff: int, stuck: set<string>, listing: seq<string>)
    requires Distinct(listing)
    ensures var r, gone := SweepThrough(s, cutoff, stuck, listing), StaleIn(s.disk, cutoff, stuck, listing);
            && r.disk == s.disk - gone
            && r.removed == s.removed + |gone|
            && r.used == s.used - (BlobBytes(s.disk) - BlobBytes(r.disk))
    decreases |listing|
  {
    if listing == [] {
      assert StaleIn(s.disk, cutoff, stuck, listing) == {} && s.disk - {} == s.disk;
    } else {
      var n, rest := listing[0], listing[1..];
      assert listing == [n] + rest;
      StaleInNext(s.disk, cutoff, stuck, n, rest);
      SweepThroughRemovesStale(AfterOne(s, cutoff, stuck, n), cutoff, stuck, rest);
      if Stale(s.disk, cutoff, stuck, n) {
        BlobBytesDrop(s.disk, n);
      }
    }
  }

  // ---- A lone Sweep as a run of the machine ----

  /** A store with one Sweep in flight and nothing else. */
  function Sweeps(disk: map<string, Entry>, used: int, cutoff: int, todo: seq<string>): Store {
    Store(disk, used, None, map[0 := Sweeping(cutoff, todo)])
  }

  /** A lone Sweep's steps for one blob; those that do not apply change nothing. */
  function SweepOne(removable: bool): seq<Action> { [StatNext(0, true), Remove(0, removable), Debit(0)] }

  lemma SoloSweepStale(
      cfg: Config, digest: string -> string, disk: map<string, Entry>, used: int,
      cutoff: int, n: string, rest: seq<string>, removable: bool)
    requires n in disk && IsBlob(n, disk[n]) && disk[n].mtime < cutoff
    ensures Run(cfg, digest, Sweeps(disk, used, cutoff, [n] + rest), SweepOne(removable))
         == if removable then Sweeps(disk - {n}, used - |disk[n].body|, cutoff, rest)
            else Sweeps(disk, used, cutoff, rest)
  {
    var s0, size := Sweeps(disk, used, cutoff, [n] + rest), |disk[n].body|;
    var stale := Store(disk, used, None, map[0 := SweepStale(cutoff, rest, n, size)]);
    assert Step(cfg, digest, s0, StatNext(0, true)) == stale;
    if removable {
      var owing := Store(disk - {n}, used, None, map[0 := SweepOwing(cutoff, rest, size)]);
      var paid := Sweeps(disk - {n}, used - size, cutoff, rest);
      TraceIsRun(cfg, digest, [s0, stale, owing, paid], SweepOne(true));
    } else {
      var passed := Sweeps(disk, used, cutoff, rest);
      TraceIsRun(cfg, digest, [s0, stale, passed, passed], SweepOne(false));
    }
  }

  lemma SoloSweepOne(
      cfg: Config, digest: string -> string, disk: map<string, Entry>, used: int,
      cutoff: int, n: string, rest: seq<string>, removable: bool)
    requires n in disk && IsBlob(n, disk[n])
    ensures Run(cfg, digest, Sweeps(disk, used, cutoff, [n] + rest), SweepOne(removable))
         == if disk[n].mtime < cutoff && removable
            then Sweeps(disk - {n}, used - |disk[n].body|, cutoff, rest)
            else Sweeps(disk, used, cutoff, rest)
  {
    if disk[n].mtime < cutoff {
      SoloSweepStale(cfg, digest, disk, used, cutoff, n, rest, removable);
    } else {
      var s0, passed := Sweeps(disk, used, cutoff, [n] + rest), Sweeps(disk, used, cutoff, rest);
      assert Step(cfg, digest, s0, StatNext(0, true)) == passed;
      TraceIsRun(cfg, digest, [s0, passed, passed, passed], SweepOne(removable));
    }
  }

  lemma SweepBegins(cfg: Config, digest: string -> string, disk: map<string, Entry>, used: int, now: int, listing: seq<string>)
    requires cfg.retain > 0
    ensures Run(cfg, digest, Idle(disk, used), [StartSweep(0, now, listing)])
         == Sweeps(disk, used, now - cfg.retain, BlobNames(disk, listing))
  {}

  lemma SweepEnds(cfg: Config, digest: string -> string, disk: map<string, Entry>, used: int, cutoff: int)
    ensures Run(cfg, digest, Sweeps(disk, used, cutoff, []), [EndSweep(0)]) == Idle(disk, used)
  {}

  function SweepEach(disk: map<string, Entry>, listing: seq<string>, stuck: set<string>): seq<Action> {
    if listing == [] then []
    else if listing[0] in disk && IsBlob(listing[0], disk[listing[0]])
    then SweepOne(listing[0] !in stuck) + SweepEach(disk, listing[1..], stuck)
    else SweepEach(disk, listing[1..], stuck)
  }

  function SweepSchedule(disk: map<string, Entry>, now: int, listing: seq<string>, stuck: set<string>): seq<Action> {
    [StartSweep(0, now, listing)] + SweepEach(disk, listing, stuck) + [EndSweep(0)]
  }

  lemma {:induction false} SweepEachCons(disk: map<string, Entry>, n: string, rest: seq<string>, stuck: set<string>)
    requires n in disk
    ensures IsBlob(n, disk[n]) ==>
              && SweepEach(disk, [n] + rest, stuck) == SweepOne(n !in stuck) + SweepEach(disk, rest, stuck)
              && BlobNames(disk, [n] + rest) == [n] + BlobNames(disk, rest)
    ensures !IsBlob(n, disk[n]) ==>
              && SweepEach(disk, [n] + rest, stuck) == SweepEach(disk, rest, stuck)
              && BlobNames(disk, [n] + rest) == BlobNames(disk, rest)
  {
    assert ([n] + rest)[1..] == rest;
  }

  lemma SweepThroughCons(s: Swept, cutoff: int, stuck: set<string>, n: string, rest: seq<string>)
    ensures SweepThrough(s, cutoff, stuck, [n] + rest) == SweepThrough(AfterOne(s, cutoff, stuck, n), cutoff, stuck, rest)
  {
    assert ([n] + rest)[1..] == rest;
  }

  /** The files still to be reached are as they were listed. */
  ghost predicate Untouched(disk: map<string, Entry>, disk0: map<string, Entry>, listing: seq<string>) {
    forall i :: 0 <= i < |listing| ==> listing[i] in disk && listing[i] in disk0 && disk[listing[i]] == disk0[listing[i]]
  }

  lemma {:induction false} AfterOneLeavesTheRest(
      disk0: map<string, Entry>, s: Swept, cutoff: int, stuck: set<string>, n: string, rest: seq<string>)
    requires Distinct([n] + rest) && Untouched(s.disk, disk0, [n] + rest)
    ensures n in s.disk && n in disk0 && s.disk[n] == disk0[n]
    ensures Distinct(rest) && Untouched(AfterOne(s, cutoff, stuck, n).disk, disk0, rest)
  {
    var listing := [n] + rest;
    assert listing[0] == n && listing[1..] == rest;
    assert forall i :: 0 <= i < |rest| ==> rest[i] == listing[i + 1] && rest[i] in rest;
  }

  lemma ListedAreUntouched(disk: map<string, Entry>, listing: seq<string>)
    requires Lists(listing, disk)
    ensures Distinct(listing) && Untouched(disk, disk, listing)
  {
    assert forall i :: 0 <= i < |listing| ==> listing[i] in listing;
  }

  lemma {:induction false} SoloSweepFirst(
      cfg: Config, digest: string -> string, s: Swept, cutoff: int, stuck: set<string>, n: string, rest: seq<string>)
    requires n in s.disk && IsBlob(n, s.disk[n])
    ensures var s' := AfterOne(s, cutoff, stuck, n);
            Run(cfg, digest, Sweeps(s.disk, s.used, cutoff, [n] + rest), SweepOne(n !in stuck))
            == Sweeps(s'.disk, s'.used, cutoff, rest)
  {
    SoloSweepOne(cfg, digest, s.disk, s.used, cutoff, n, rest, n !in stuck);
  }

  lemma {:induction false} SoloSweepEach(
      cfg: Config, digest: string -> string, disk0: map<string, Entry>, s: Swept,
      cutoff: int, stuck: set<string>, listing: seq<string>)
    requires Distinct(listing) && Untouched(s.disk, disk0, listing)
    ensures var r := SweepThrough(s, cutoff, stuck, listing);
            Run(cfg, digest, Sweeps(s.disk, s.used, cutoff, BlobNames(disk0, listing)), SweepEach(disk0, listing, stuck))
            == Sweeps(r.disk, r.used, cutoff, [])
    decreases |listing|
  {
    if listing != [] {
      var n, rest := listing[0], listing[1..];
      assert listing == [n] + rest;
      var s' := AfterOne(s, cutoff, stuck, n);
      AfterOneLeavesTheRest(disk0, s, cutoff, stuck, n, rest);
      SoloSweepEach(cfg, digest, disk0, s', cutoff, stuck, rest);
      SweepEachCons(disk0, n, rest, stuck);
      SweepThroughCons(s, cutoff, stuck, n, rest);
      if IsBlob(n, disk0[n]) {
        var todo := BlobNames(disk0, rest);
        SoloSweepFirst(cfg, digest, s, cutoff, stuck, n, todo);
        RunConcat(cfg, digest, Sweeps(s.disk, s.used, cutoff, [n] + todo), SweepOne(n !in stuck),
                  SweepEach(disk0, rest, stuck));
      }
    }
  }

  lemma SoloSweepRuns(
      cfg: Config, digest: string -> string, disk: map<string, Entry>, used: int,
      now: int, listing: seq<string>, stuck: set<string>)
    requires cfg.retain > 0 && Lists(listing, disk)
    ensures var r := SweepThrough(Swept(disk, used, 0), now - cfg.retain, stuck, listing);
            Run(cfg, digest, Idle(disk, used), SweepSchedule(disk, now, listing, stuck)) == Idle(r.disk, r.used)
  {
    var start, each := [StartSweep(0, now, listing)], SweepEach(disk, listing, stuck);
    var cutoff, r := now - cfg.retain, SweepThrough(Swept(disk, used, 0), now - cfg.retain, stuck, listing);
    SweepBegins(cfg, digest, disk, used, now, listing);
    ListedAreUntouched(disk, listing);
    SoloSweepEach(cfg, digest, disk, Swept(disk, used, 0), cutoff, stuck, listing);
    RunConcat(cfg, digest, Idle(disk, used), start, each);
    SweepEnds(cfg, digest, r.disk, r.used, cutoff);
    RunConcat(cfg, digest, Idle(disk, used), start + each, [EndSweep(0)]);
  }

  lemma ListingFindsExpired(cfg: Config, disk: map<string, Entry>, now: int, listing: seq<string>, stuck: set<string>)
    requires cfg.retain > 0 && Lists(listing, disk)
    ensures Expired(cfg, disk, now, stuck) == StaleIn(disk, now - cfg.retain, stuck, listing)
  {}

  /** A lone Sweep is a run of the machine, and removes exactly what has expired. */
  lemma SoloSweep(
      cfg: Config, digest: string -> string, disk: map<string, Entry>, used: int,
      now: int, listing: seq<string>, stuck: set<string>)
    requires cfg.retain > 0 && Lists(listing, disk)
    ensures var r := SweepThrough(Swept(disk, used, 0), now - cfg.retain, stuck, listing);
            && r.disk == disk - Expired(cfg, disk, now, stuck)
            && r.used == used - (BlobBytes(disk) - BlobBytes(r.disk))
            && r.removed == |Expired(cfg, disk, now, stuck)|
            && Run(cfg, digest, Idle(disk, used), SweepSchedule(disk, now, listing, stuck)) == Idle(r.disk, r.used)
  {
    ListingFindsExpired(cfg, disk, now, listing, stuck);
    SweepThroughRemovesStale(Swept(disk, used, 0), now - cfg.retain, stuck, listing);
    SoloSweepRuns(cfg, digest, disk, used, now, listing, stuck);
  }

  class Server {
    const cfg: Config
    const digest: string -> string
    var disk: map<string, Entry>
    var used: int

    constructor (cfg: Config, digest: string -> string, disk: map<string, Entry>)
      ensures this.cfg == cfg && this.digest == digest
      ensures Idle(this.disk, this.used) == Scanned(disk)
    {
      this.cfg, this.digest, this.disk, this.used := cfg, digest, disk, 0;
      new;
      Scan();
    }

    method Scan()
      modifies this`used
      ensures used == old(used) + BlobBytes(disk)
    {
      var todo := disk.Keys;
      while todo != {}
        invariant todo <= disk.Keys
        invariant used == old(used) + BlobBytes(disk - todo)
      {
        var n :| n in todo;
        assert disk - (todo - {n}) == (disk - todo)[n := disk[n]];
        BlobBytesSet(disk - todo, n, disk[n]);
        todo := todo - {n};
        if disk[n].Directory? || !ValidSha(n) { continue; }
        used := used + |disk[n].body|;
      }
      assert disk - {} == disk;
    }

    method Put(sha: string, body: string, authorized: bool, now: int, writes: bool)
      returns (r: Result<nat, PutOutcome>)
      modifies this`disk, this`used
      ensures Idle(disk, used)
           == Run(cfg, digest, Idle(old(disk), old(used)), PutSchedule(0, sha, body, authorized, now, writes))
      ensures var o := OutcomeOf(cfg, digest, old(disk), old(used), sha, body, authorized, writes);
              r == if o.Stored? || o.AlreadyStored? then Ok(|body|) else Err(o)
      ensures r.Ok? ==> sha in disk && digest(body) == sha
      ensures disk != old(disk) ==> disk == old(disk)[sha := File(body, now)] && used == old(used) + |body|
    {
      SoloPut(cfg, digest, Idle(disk, used), 0, sha, body, authorized, now, writes);
      if !ValidSha(sha) || !authorized { return Err(Refused); }
      if cfg.maxBlob > 0 && |body| > cfg.maxBlob { return Err(Refused); }
      if digest(body) != sha { return Err(Refused); }
      if sha in disk { return Ok(|body|); }
      if cfg.quota > 0 && used + |body| > cfg.quota { return Err(OverQuota); }
      if !writes { return Err(WriteFailed); }
      disk := disk[sha := File(body, now)];
      used := used + |body|;
      return Ok(|body|);
    }

    method Sweep(now: int, listing: seq<string>, stuck: set<string>) returns (removed: nat)
      requires Lists(listing, disk)
      modifies this`disk, this`used
      ensures disk == old(disk) - Expired(cfg, old(disk), now, stuck)
      ensures used == old(used) - (BlobBytes(old(disk)) - BlobBytes(disk))
      ensures removed == |Expired(cfg, old(disk), now, stuck)|
      ensures cfg.retain > 0 ==>
                Idle(disk, used)
                == Run(cfg, digest, Idle(old(disk), old(used)), SweepSchedule(old(disk), now, listing, stuck))
    {
      if cfg.retain <= 0 {
        assert disk - {} == disk;
        return 0;
      }
      SoloSweep(cfg, digest, disk, used, now, listing, stuck);
      removed := RemoveStale(now - cfg.retain, listing, stuck);
    }

    /** The loop of Sweep. */
    method RemoveStale(cutoff: int, listing: seq<string>, stuck: set<string>) returns (removed: nat)
      modifies this`disk, this`used
      ensures Swept(disk, used, removed) == SweepThrough(Swept(old(disk), old(used), 0), cutoff, stuck, listing)
    {
      removed := 0;
      ghost var end := SweepThrough(Swept(disk, used, 0), cutoff, stuck, listing);
      assert listing[0..] == listing;
      for i := 0 to |listing|
        invariant SweepThrough(Swept(disk, used, removed), cutoff, stuck, listing[i..]) == end
      {
        var n := listing[i];
        if n !in disk || disk[n].Directory? || !ValidSha(n) { continue; }
        if disk[n].mtime < cutoff && n !in stuck {
          var size := |disk[n].body|;
          disk := disk - {n};
          used := used - size;
          removed := removed + 1;
        }
      }
    }
  }
}
