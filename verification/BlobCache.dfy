/**
 The content-addressed blob cache: a directory, a size and a last use for each
 cached blob, and one running byte counter. Put adds the new size to the counter
 and never takes off the size it overwrites.
 */
module BlobCache {
  import opened Outcome
  import opened Text
  import opened MapSum

  datatype File = File(body: string, mtime: int)

  datatype Cache = Cache(used: int, sizes: map<string, int>, lastUse: map<string, int>, disk: map<string, File>)

  /** The names scan takes for blobs. */
  predicate IsBlobName(name: string) { |name| == 64 }

  /** sha256 in hexadecimal, of which only the length is used. */
  ghost predicate IsDigest(digest: string -> string) { forall b :: |digest(b)| == 64 }

  function SizeAt(sizes: map<string, int>, name: string): int { if name in sizes then sizes[name] else 0 }

  function Blobs(disk: map<string, File>): set<string> { set n | n in disk && IsBlobName(n) }

  /** sizes, lastUse and the directory tell of the same blobs, and sizes tells true. */
  ghost predicate InStep(c: Cache) {
    && c.sizes.Keys == c.lastUse.Keys == Blobs(c.disk)
    && forall n :: n in c.sizes ==> c.sizes[n] == |c.disk[n].body|
  }

  /** What the counter holds beyond the stored sizes. */
  ghost function Drift(c: Cache): int { c.used - Sum(c.sizes) }

  ghost function Scanned(disk: map<string, File>): Cache {
    var sizes: map<string, int> := map n | n in Blobs(disk) :: |disk[n].body|;
    Cache(Sum(sizes), sizes, map n | n in Blobs(disk) :: disk[n].mtime, disk)
  }

  function Opened(c: Cache, sha: string, now: int): Cache {
    if sha in c.disk then c.(lastUse := c.lastUse[sha := now]) else c
  }

  /** Put, up to the eviction. */
  function Inserted(c: Cache, sha: string, body: string, now: int): Cache {
    Cache(c.used + |body|, c.sizes[sha := |body|], c.lastUse[sha := now], c.disk[sha := File(body, now)])
  }

  function Evict(c: Cache, name: string): Cache {
    Cache(c.used - SizeAt(c.sizes, name), c.sizes - {name}, c.lastUse - {name}, c.disk - {name})
  }

  predicate Removable(c: Cache, name: string, stuck: set<string>) { name in c.disk && name !in stuck }

  /** evictLocked's loop over `order`; the files in `stuck` fail to be removed. */
  function EvictLoop(c: Cache, quota: int, order: seq<string>, stuck: set<string>): Cache
    decreases |order|
  {
    if order == [] || c.used <= quota then c
    else EvictLoop(if Removable(c, order[0], stuck) then Evict(c, order[0]) else c, quota, order[1..], stuck)
  }

  lemma EvictLoopNext(c: Cache, quota: int, order: seq<string>, i: nat, stuck: set<string>)
    requires i < |order| && c.used > quota
    ensures EvictLoop(c, quota, order[i..], stuck)
         == EvictLoop(if Removable(c, order[i], stuck) then Evict(c, order[i]) else c, quota, order[i + 1..], stuck)
  {
    assert order[i..][0] == order[i] && order[i..][1..] == order[i + 1..];
  }

  /** The keys of `lastUse`, least recently used first; ties fall either way. */
  ghost predicate IsLruOrder(order: seq<string>, lastUse: map<string, int>) {
    && Distinct(order)
    && (forall n :: n in order <==> n in lastUse)
    && forall i, j :: 0 <= i < j < |order| ==> lastUse[order[i]] <= lastUse[order[j]]
  }

  // ---- What eviction takes ----

  /** Removal of every removable name of `names`, with no eye to the quota. */
  function EvictAll(c: Cache, names: seq<string>, stuck: set<string>): Cache
    decreases |names|
  {
    if names == [] then c
    else EvictAll(if Removable(c, names[0], stuck) then Evict(c, names[0]) else c, names[1..], stuck)
  }

  /** How many names of `order` the loop goes through. */
  function EvictCount(c: Cache, quota: int, order: seq<string>, stuck: set<string>): (k: nat)
    ensures k <= |order|
    decreases |order|
  {
    if order == [] || c.used <= quota then 0
    else 1 + EvictCount(if Removable(c, order[0], stuck) then Evict(c, order[0]) else c, quota, order[1..], stuck)
  }

  /** The loop removes a prefix of `order`, and the shortest that brings the counter to the quota, if one does. */
  lemma {:induction false} EvictsShortestPrefix(c: Cache, quota: int, order: seq<string>, stuck: set<string>)
    ensures var k := EvictCount(c, quota, order, stuck);
            && EvictLoop(c, quota, order, stuck) == EvictAll(c, order[..k], stuck)
            && (forall j :: 0 <= j < k ==> EvictAll(c, order[..j], stuck).used > quota)
            && (k < |order| ==> EvictAll(c, order[..k], stuck).used <= quota)
    decreases |order|
  {
    var k := EvictCount(c, quota, order, stuck);
    if order != [] && c.used > quota {
      var c' := if Removable(c, order[0], stuck) then Evict(c, order[0]) else c;
      EvictsShortestPrefix(c', quota, order[1..], stuck);
      assert order[..k][1..] == order[1..][..k - 1];
      forall j | 0 < j < k
        ensures EvictAll(c, order[..j], stuck).used > quota
      {
        assert order[..j][1..] == order[1..][..j - 1];
      }
    }
  }

  function Victims(c: Cache, names: seq<string>, stuck: set<string>): set<string> {
    set n | n in names && Removable(c, n, stuck)
  }

  lemma EvictKeepsStep(c: Cache, name: string)
    requires InStep(c) && name in c.sizes
    ensures InStep(Evict(c, name)) && Drift(Evict(c, name)) == Drift(c)
  {
    SumWithout(c.sizes, name);
  }

  /** Removal takes the victims out of all three maps, and leaves the drift as it was. */
  lemma {:induction false} EvictAllRemovesVictims(c: Cache, names: seq<string>, stuck: set<string>)
    requires InStep(c) && Distinct(names) && forall n :: n in names ==> n in c.sizes
    ensures var r, gone := EvictAll(c, names, stuck), Victims(c, names, stuck);
            && InStep(r) && Drift(r) == Drift(c)
            && r.sizes == c.sizes - gone && r.lastUse == c.lastUse - gone && r.disk == c.disk - gone
    decreases |names|
  {
    var gone := Victims(c, names, stuck);
    if names == [] {
    } else {
      var n, rest := names[0], names[1..];
      var later := Victims(c, rest, stuck);
      if Removable(c, n, stuck) {
        var c' := Evict(c, n);
        EvictKeepsStep(c, n);
        EvictAllRemovesVictims(c', rest, stuck);
        assert Victims(c', rest, stuck) == later;
        MinusMinus(c, n, later);
        assert gone == {n} + later;
      } else {
        EvictAllRemovesVictims(c, rest, stuck);
        assert gone == later;
      }
    }
  }

  lemma MinusMinus(c: Cache, n: string, later: set<string>)
    ensures c.sizes - {n} - later == c.sizes - ({n} + later)
    ensures c.lastUse - {n} - later == c.lastUse - ({n} + later)
    ensures c.disk - {n} - later == c.disk - ({n} + later)
  {}

  lemma {:induction false} DistinctPrefix(names: seq<string>, k: nat)
    requires Distinct(names) && k <= |names|
    ensures Distinct(names[..k])
    ensures forall n :: n in names[..k] && n in names[k..] ==> false
    decreases k
  {
    if k > 0 {
      DistinctPrefix(names[1..], k - 1);
      assert names[..k][1..] == names[1..][..k - 1];
      assert names[..k][0] == names[0];
      assert names[k..] == names[1..][k - 1..];
    }
  }

  /**
   Eviction as its comment promises it: the removed blobs come first in order of
   last use, so none of them was used after a blob that could be removed and stayed.
   */
  lemma EvictionIsLeastRecentlyUsed(c: Cache, quota: int, order: seq<string>, stuck: set<string>)
    requires InStep(c) && IsLruOrder(order, c.lastUse)
    ensures var r := EvictLoop(c, quota, order, stuck);
            && InStep(r) && Drift(r) == Drift(c)
            && r.lastUse.Keys <= c.lastUse.Keys
            && (forall n :: n in r.lastUse ==> r.lastUse[n] == c.lastUse[n] && r.sizes[n] == c.sizes[n])
            && (forall victim, kept :: victim in c.lastUse && victim !in r.lastUse && kept in r.lastUse && kept !in stuck
                  ==> c.lastUse[victim] <= c.lastUse[kept])
            && (forall n :: n in c.disk && !IsBlobName(n) ==> n in r.disk && r.disk[n] == c.disk[n])
            && (r.used > quota ==> forall n :: n in r.lastUse ==> n in stuck)
  {
    var k := EvictCount(c, quota, order, stuck);
    EvictsShortestPrefix(c, quota, order, stuck);
    DistinctPrefix(order, k);
    EvictAllRemovesVictims(c, order[..k], stuck);
    var r := EvictLoop(c, quota, order, stuck);
    forall victim, kept | victim in c.lastUse && victim !in r.lastUse && kept in r.lastUse && kept !in stuck
      ensures c.lastUse[victim] <= c.lastUse[kept]
    {
      PrefixIsOlder(order, c.lastUse, k, victim, kept);
    }
    if r.used > quota {
      assert k == |order| && order[..k] == order;
    }
  }

  lemma PrefixIsOlder(order: seq<string>, lastUse: map<string, int>, k: nat, victim: string, kept: string)
    requires IsLruOrder(order, lastUse) && k <= |order|
    requires victim in order[..k] && kept in lastUse && kept !in order[..k]
    ensures victim in lastUse && lastUse[victim] <= lastUse[kept]
  {}

  // ---- Put and Open ----

  datatype PutError = HashMismatch | StorageFailed

  /** The whole of Put. `stored` tells whether the file operations succeed. */
  function AfterPut(
      c: Cache, quota: int, digest: string -> string, sha: string, body: string, now: int,
      stored: bool, order: seq<string>, stuck: set<string>): Cache
  {
    if digest(body) == sha && stored
    then EvictLoop(Inserted(c, sha, body, now), quota, order, stuck)
    else c
  }

  lemma InsertKeepsStep(c: Cache, sha: string, body: string, now: int)
    requires InStep(c) && IsBlobName(sha)
    ensures InStep(Inserted(c, sha, body, now))
    ensures Drift(Inserted(c, sha, body, now)) == Drift(c) + SizeAt(c.sizes, sha)
  {
    SumUpdate(c.sizes, sha, |body|);
  }

  /** Opening keeps the maps in step, except for a file that is no blob: that one gains a last use and no size. */
  lemma OpenKeepsStep(c: Cache, sha: string, now: int)
    requires InStep(c)
    ensures InStep(Opened(c, sha, now)) <==> IsBlobName(sha) || sha !in c.disk
    ensures Drift(Opened(c, sha, now)) == Drift(c)
  {}

  /** When removals succeed, the stored sizes fit the quota after every Put, however far the counter has drifted. */
  lemma PutStaysWithinQuota(
      c: Cache, quota: int, digest: string -> string, sha: string, body: string, now: int, order: seq<string>)
    requires InStep(c) && Drift(c) >= 0 && quota >= 0 && IsDigest(digest) && digest(body) == sha
    requires IsLruOrder(order, Inserted(c, sha, body, now).lastUse)
    ensures var r := AfterPut(c, quota, digest, sha, body, now, true, order, {});
            && Sum(r.sizes) <= quota
            && (Drift(r) > quota ==> r.sizes == map[] && Blobs(r.disk) == {})
  {
    var c' := Inserted(c, sha, body, now);
    InsertKeepsStep(c, sha, body, now);
    EvictionIsLeastRecentlyUsed(c', quota, order, {});
    var r := EvictLoop(c', quota, order, {});
    SumNonNegative(r.sizes);
  }

  /** A blob used after all others but `name` goes only when every removable one of those has gone. */
  lemma LatestGoesLast(c: Cache, quota: int, order: seq<string>, stuck: set<string>, sha: string, name: string)
    requires InStep(c) && IsLruOrder(order, c.lastUse) && sha in c.lastUse
    requires forall n :: n in c.lastUse && n != sha && n != name ==> c.lastUse[n] < c.lastUse[sha]
    ensures var r := EvictLoop(c, quota, order, stuck);
            sha !in r.lastUse ==> forall kept :: kept in r.lastUse && kept != name ==> kept in stuck
  {
    EvictionIsLeastRecentlyUsed(c, quota, order, stuck);
  }

  /** Use protects: in a Put, the blob opened last goes only after every removable blob but the one being Put. */
  lemma OpenedGoesLast(
      c: Cache, quota: int, sha: string, now: int, name: string, body: string, at: int,
      order: seq<string>, stuck: set<string>)
    requires InStep(c) && sha in c.sizes && IsBlobName(name) && sha != name
    requires forall n :: n in c.lastUse ==> c.lastUse[n] < now
    requires IsLruOrder(order, Inserted(Opened(c, sha, now), name, body, at).lastUse)
    ensures var r := EvictLoop(Inserted(Opened(c, sha, now), name, body, at), quota, order, stuck);
            sha !in r.lastUse ==> forall kept :: kept in r.lastUse && kept != name ==> kept in stuck
  {
    OpenKeepsStep(c, sha, now);
    InsertKeepsStep(Opened(c, sha, now), name, body, at);
    LatestGoesLast(Inserted(Opened(c, sha, now), name, body, at), quota, order, stuck, sha, name);
  }

  /** And the blob being Put, if it comes later than every use, goes only after all removable others. */
  lemma PutGoesLast(
      c: Cache, quota: int, name: string, body: string, at: int, order: seq<string>, stuck: set<string>)
    requires InStep(c) && IsBlobName(name) && forall n :: n in c.lastUse ==> c.lastUse[n] < at
    requires IsLruOrder(order, Inserted(c, name, body, at).lastUse)
    ensures var r := EvictLoop(Inserted(c, name, body, at), quota, order, stuck);
            name !in r.lastUse ==> forall kept :: kept in r.lastUse ==> kept in stuck
  {
    InsertKeepsStep(c, name, body, at);
    LatestGoesLast(Inserted(c, name, body, at), quota, order, stuck, name, name);
  }

  // ---- Runs ----

  datatype Op =
    | Open(sha: string, now: int)
    | Put(sha: string, body: string, now: int, stored: bool, order: seq<string>, stuck: set<string>)

  function Apply(c: Cache, quota: int, digest: string -> string, op: Op): Cache {
    match op
    case Open(sha, now) => Opened(c, sha, now)
    case Put(sha, body, now, stored, order, stuck) => AfterPut(c, quota, digest, sha, body, now, stored, order, stuck)
  }

  function Run(c: Cache, quota: int, digest: string -> string, ops: seq<Op>): Cache {
    if ops == [] then c else Apply(Run(c, quota, digest, ops[..|ops| - 1]), quota, digest, ops[|ops| - 1])
  }

  /** The caller opens blobs only, and a Put evicts in some least-recently-used order. */
  ghost predicate Proper(c: Cache, op: Op) {
    match op
    case Open(sha, _) => IsBlobName(sha)
    case Put(sha, body, now, _, order, _) => IsLruOrder(order, Inserted(c, sha, body, now).lastUse)
  }

  ghost predicate ProperRun(c: Cache, quota: int, digest: string -> string, ops: seq<Op>) {
    ops == [] ||
    (ProperRun(c, quota, digest, ops[..|ops| - 1])
     && Proper(Run(c, quota, digest, ops[..|ops| - 1]), ops[|ops| - 1]))
  }

  /** The size that an operation overwrites without taking it off the counter. */
  function Overcount(c: Cache, digest: string -> string, op: Op): int {
    if op.Put? && digest(op.body) == op.sha && op.stored then SizeAt(c.sizes, op.sha) else 0
  }

  function TotalOvercount(c: Cache, quota: int, digest: string -> string, ops: seq<Op>): int {
    if ops == [] then 0
    else
      var before := ops[..|ops| - 1];
      TotalOvercount(c, quota, digest, before) + Overcount(Run(c, quota, digest, before), digest, ops[|ops| - 1])
  }

  /** Some blob was Put while it was cached and not empty. */
  predicate RePutsLive(c: Cache, quota: int, digest: string -> string, ops: seq<Op>) {
    if ops == [] then false
    else
      var before, op := ops[..|ops| - 1], ops[|ops| - 1];
      var now := Run(c, quota, digest, before);
      RePutsLive(c, quota, digest, before)
      || (op.Put? && op.stored && digest(op.body) == op.sha && op.sha in now.sizes && now.sizes[op.sha] > 0)
  }

  lemma ApplyKeepsStep(c: Cache, quota: int, digest: string -> string, op: Op)
    requires InStep(c) && IsDigest(digest) && Proper(c, op)
    ensures InStep(Apply(c, quota, digest, op))
    ensures Drift(Apply(c, quota, digest, op)) == Drift(c) + Overcount(c, digest, op)
    ensures Overcount(c, digest, op) >= 0
  {
    match op
    case Open(sha, now) => OpenKeepsStep(c, sha, now);
    case Put(sha, body, now, stored, order, stuck) =>
      if digest(body) == sha && stored {
        InsertKeepsStep(c, sha, body, now);
        EvictionIsLeastRecentlyUsed(Inserted(c, sha, body, now), quota, order, stuck);
      }
  }

  /**
   Over every run from an opening scan the three maps stay in step, and the
   counter exceeds the stored bytes by exactly what re-Puts have overwritten.
   */
  lemma {:induction false} RunDrift(disk: map<string, File>, quota: int, digest: string -> string, ops: seq<Op>)
    requires IsDigest(digest) && ProperRun(Scanned(disk), quota, digest, ops)
    ensures InStep(Run(Scanned(disk), quota, digest, ops))
    ensures Drift(Run(Scanned(disk), quota, digest, ops)) == TotalOvercount(Scanned(disk), quota, digest, ops)
    ensures TotalOvercount(Scanned(disk), quota, digest, ops) >= 0
    ensures forall before :: before < ops && |before| + 1 == |ops| ==>
              TotalOvercount(Scanned(disk), quota, digest, before) <= TotalOvercount(Scanned(disk), quota, digest, ops)
  {
    if ops != [] {
      var before := ops[..|ops| - 1];
      RunDrift(disk, quota, digest, before);
      ApplyKeepsStep(Run(Scanned(disk), quota, digest, before), quota, digest, ops[|ops| - 1]);
      assert forall b :: b < ops && |b| + 1 == |ops| ==> b == before;
    }
  }

  /** Every completed Put of every run, if its removals succeed, leaves the blobs within the quota. */
  lemma EveryPutFitsQuota(disk: map<string, File>, quota: int, digest: string -> string, ops: seq<Op>)
    requires IsDigest(digest) && quota >= 0 && ProperRun(Scanned(disk), quota, digest, ops)
    requires ops != [] && ops[|ops| - 1].Put? && ops[|ops| - 1].stuck == {}
    requires ops[|ops| - 1].stored && digest(ops[|ops| - 1].body) == ops[|ops| - 1].sha
    ensures var c := Run(Scanned(disk), quota, digest, ops);
            && Sum(c.sizes) <= quota
            && (TotalOvercount(Scanned(disk), quota, digest, ops) > quota ==> c.sizes == map[] && Blobs(c.disk) == {})
  {
    var before, op := ops[..|ops| - 1], ops[|ops| - 1];
    RunDrift(disk, quota, digest, before);
    RunDrift(disk, quota, digest, ops);
    PutStaysWithinQuota(Run(Scanned(disk), quota, digest, before), quota, digest, op.sha, op.body, op.now, op.order);
  }

  /** The counter is exact precisely when no live, non-empty blob was ever Put again. */
  lemma {:induction false} ExactIffNoLiveRePut(disk: map<string, File>, quota: int, digest: string -> string, ops: seq<Op>)
    requires IsDigest(digest) && ProperRun(Scanned(disk), quota, digest, ops)
    ensures var c := Run(Scanned(disk), quota, digest, ops);
            c.used == Sum(c.sizes) <==> !RePutsLive(Scanned(disk), quota, digest, ops)
  {
    if ops != [] {
      var before := ops[..|ops| - 1];
      ExactIffNoLiveRePut(disk, quota, digest, before);
      RunDrift(disk, quota, digest, before);
      ApplyKeepsStep(Run(Scanned(disk), quota, digest, before), quota, digest, ops[|ops| - 1]);
    }
  }

  // ---- A blob that is counted and gone ----

  /** On record, but no longer in the directory: something other than this cache removed the file. */
  predicate IsStranded(c: Cache, sha: string) { sha in c.sizes && c.sizes[sha] > 0 && sha !in c.disk }

  lemma {:induction false} EvictLoopKeepsStranded(c: Cache, quota: int, order: seq<string>, stuck: set<string>, sha: string)
    requires IsStranded(c, sha)
    ensures IsStranded(EvictLoop(c, quota, order, stuck), sha)
    decreases |order|
  {
    if order != [] && c.used > quota {
      EvictLoopKeepsStranded(
        if Removable(c, order[0], stuck) then Evict(c, order[0]) else c, quota, order[1..], stuck, sha);
    }
  }

  /** Such a blob is never evicted: only storing it again clears the record. */
  lemma StrandedStays(c: Cache, quota: int, digest: string -> string, op: Op, sha: string)
    requires IsStranded(c, sha) && (op.Put? && op.sha == sha ==> digest(op.body) != sha || !op.stored)
    ensures IsStranded(Apply(c, quota, digest, op), sha)
  {
    if op.Put? && digest(op.body) == op.sha && op.stored {
      EvictLoopKeepsStranded(Inserted(c, op.sha, op.body, op.now), quota, op.order, op.stuck, sha);
    }
  }

  // ---- Contents ----

  /** Every cached blob hashes to its name. */
  ghost predicate NamesMatch(c: Cache, digest: string -> string) {
    forall n :: n in c.disk && IsBlobName(n) ==> digest(c.disk[n].body) == n
  }

  lemma {:induction false} EvictLoopKeepsContents(c: Cache, quota: int, order: seq<string>, stuck: set<string>)
    ensures forall n :: n in EvictLoop(c, quota, order, stuck).disk ==>
              n in c.disk && EvictLoop(c, quota, order, stuck).disk[n] == c.disk[n]
    decreases |order|
  {
    if order != [] && c.used > quota {
      EvictLoopKeepsContents(if Removable(c, order[0], stuck) then Evict(c, order[0]) else c, quota, order[1..], stuck);
    }
  }

  lemma PutKeepsContents(
      c: Cache, quota: int, digest: string -> string, sha: string, body: string, now: int,
      stored: bool, order: seq<string>, stuck: set<string>)
    requires NamesMatch(c, digest)
    ensures NamesMatch(AfterPut(c, quota, digest, sha, body, now, stored, order, stuck), digest)
  {
    EvictLoopKeepsContents(Inserted(c, sha, body, now), quota, order, stuck);
  }

  lemma ScanNext(disk: map<string, File>, todo: set<string>, n: string)
    requires n in todo && n in disk
    ensures var before, after := Scanned(disk - todo), Scanned(disk - (todo - {n}));
            && n !in before.sizes
            && after.sizes == (if IsBlobName(n) then before.sizes[n := |disk[n].body|] else before.sizes)
            && after.lastUse == (if IsBlobName(n) then before.lastUse[n := disk[n].mtime] else before.lastUse)
  {}

  class BlobStore {
    const quota: int
    const digest: string -> string
    var used: int
    var sizes: map<string, int>
    var lastUse: map<string, int>
    var disk: map<string, File>

    function View(): Cache
      reads this
    {
      Cache(used, sizes, lastUse, disk)
    }

    constructor (quota: int, digest: string -> string, disk: map<string, File>)
      ensures this.quota == quota && this.digest == digest
      ensures View() == Scanned(disk)
      ensures InStep(View()) && Drift(View()) == 0
    {
      this.quota, this.digest, this.disk := quota, digest, disk;
      used, sizes, lastUse := 0, map[], map[];
      new;
      var todo := disk.Keys;
      while todo != {}
        invariant todo <= disk.Keys && this.disk == disk
        invariant sizes == Scanned(disk - todo).sizes && lastUse == Scanned(disk - todo).lastUse
        invariant used == Sum(sizes)
      {
        var n :| n in todo;
        ScanNext(disk, todo, n);
        todo := todo - {n};
        if |n| != 64 { continue; }
        SumUpdate(sizes, n, |disk[n].body|);
        sizes := sizes[n := |disk[n].body|];
        lastUse := lastUse[n := disk[n].mtime];
        used := used + |disk[n].body|;
      }
      assert disk - {} == disk;
    }

    /** A cached empty blob is reported absent: Has asks for a positive size. */
    method Has(sha: string) returns (cached: bool)
      ensures cached <==> SizeAt(sizes, sha) > 0
      ensures InStep(View()) ==> (cached <==> sha in Blobs(disk) && disk[sha].body != "")
    {
      cached := sha in sizes && sizes[sha] > 0;
    }

    method Open(sha: string, now: int) returns (r: Option<string>)
      modifies this`lastUse
      ensures View() == Opened(old(View()), sha, now)
      ensures r == if sha in disk then Some(disk[sha].body) else None
    {
      if sha !in disk { return None; }
      lastUse := lastUse[sha := now];
      return Some(disk[sha].body);
    }

    method Put(sha: string, body: string, now: int, stored: bool, stuck: set<string>)
      returns (r: Result<nat, PutError>, ghost order: seq<string>)
      modifies this`used, this`sizes, this`lastUse, this`disk
      ensures r.Ok? ==> IsLruOrder(order, Inserted(old(View()), sha, body, now).lastUse)
      ensures View() == AfterPut(old(View()), quota, digest, sha, body, now, stored, order, stuck)
      ensures r == if digest(body) != sha then Err(HashMismatch) else if !stored then Err(StorageFailed) else Ok(|body|)
    {
      order := [];
      if digest(body) != sha { return Err(HashMismatch), order; }
      if !stored { return Err(StorageFailed), order; }
      disk := disk[sha := File(body, now)];
      sizes := sizes[sha := |body|];
      lastUse := lastUse[sha := now];
      used := used + |body|;
      order := EvictLocked(stuck);
      return Ok(|body|), order;
    }

    method EvictLocked(stuck: set<string>) returns (ghost order: seq<string>)
      modifies this`used, this`sizes, this`lastUse, this`disk
      ensures IsLruOrder(order, old(lastUse))
      ensures View() == EvictLoop(old(View()), quota, order, stuck)
    {
      var names := SortedByLastUse(lastUse);
      order := names;
      if used <= quota { return; }
      ghost var end := EvictLoop(View(), quota, names, stuck);
      var i := 0;
      assert names[0..] == names;
      while i < |names|
        invariant 0 <= i <= |names|
        invariant EvictLoop(View(), quota, names[i..], stuck) == end
      {
        if used <= quota { break; }
        ghost var c := View();
        EvictLoopNext(c, quota, names, i, stuck);
        var sha := names[i];
        if sha in disk && sha !in stuck {
          used := used - (if sha in sizes then sizes[sha] else 0);
          sizes, lastUse, disk := sizes - {sha}, lastUse - {sha}, disk - {sha};
        }
        assert View() == if Removable(c, sha, stuck) then Evict(c, sha) else c;
        i := i + 1;
      }
    }
  }

  lemma {:induction false} DistinctInsert(order: seq<string>, i: nat, n: string)
    requires Distinct(order) && i <= |order| && n !in order
    ensures Distinct(order[..i] + [n] + order[i..])
    ensures forall m :: m in order[..i] + [n] + order[i..] <==> m == n || m in order
  {
    var longer := order[..i] + [n] + order[i..];
    if i == 0 {
      assert longer == [n] + order;
    } else {
      var first, rest := order[0], order[1..];
      var shorter := rest[..i - 1] + [n] + rest[i - 1..];
      DistinctInsert(rest, i - 1, n);
      assert longer == [first] + shorter;
    }
  }

  lemma InsertKeepsLruOrder(order: seq<string>, i: nat, n: string, m: map<string, int>, at: int)
    requires IsLruOrder(order, m) && n !in m && i <= |order|
    requires forall j :: 0 <= j < |order| ==> order[j] in m
    requires forall j :: 0 <= j < i ==> m[order[j]] <= at
    requires i < |order| ==> at < m[order[i]]
    ensures IsLruOrder(order[..i] + [n] + order[i..], m[n := at])
  {
    DistinctInsert(order, i, n);
    InsertKeepsRank(order, i, n, m, at);
  }

  lemma InsertKeepsRank(order: seq<string>, i: nat, n: string, m: map<string, int>, at: int)
    requires n !in m && i <= |order| && forall j :: 0 <= j < |order| ==> order[j] in m
    requires forall j, k :: 0 <= j < k < |order| ==> m[order[j]] <= m[order[k]]
    requires forall j :: 0 <= j < i ==> m[order[j]] <= at
    requires i < |order| ==> at < m[order[i]]
    ensures var longer, m' := order[..i] + [n] + order[i..], m[n := at];
            && (forall j :: 0 <= j < |longer| ==> longer[j] in m')
            && forall j, k :: 0 <= j < k < |longer| ==> m'[longer[j]] <= m'[longer[k]]
  {}

  /** sort.Slice over the keys, by last use: insertion keeps the order sorted. */
  method SortedByLastUse(lastUse: map<string, int>) returns (order: seq<string>)
    ensures IsLruOrder(order, lastUse)
  {
    var todo := lastUse.Keys;
    order := [];
    while todo != {}
      invariant todo <= lastUse.Keys
      invariant IsLruOrder(order, lastUse - todo)
    {
      var n :| n in todo;
      var i := 0;
      assert forall j :: 0 <= j < |order| ==> order[j] in order;
      while i < |order| && lastUse[order[i]] <= lastUse[n]
        invariant 0 <= i <= |order|
        invariant forall j :: 0 <= j < i ==> lastUse[order[j]] <= lastUse[n]
      {
        i := i + 1;
      }
      InsertKeepsLruOrder(order, i, n, lastUse - todo, lastUse[n]);
      assert lastUse - (todo - {n}) == (lastUse - todo)[n := lastUse[n]];
      order := order[..i] + [n] + order[i..];
      todo := todo - {n};
    }
    assert lastUse - {} == lastUse;
  }
}
