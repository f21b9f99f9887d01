/**
 The local Blossom store as a machine of interleaved steps. Put holds the mutex
 from its stat to its charge; Sweep removes files outside the mutex and takes it
 only to debit, so a removal can fall between any two steps of a Put or of
 another Sweep. One file operation is one step.
 */
module BlossomMachine {
  import opened Outcome
  import opened Text
  import opened MapSum

  datatype Entry = File(body: string, mtime: int) | Directory

  /** Zero quota, cap or retention switches the respective rule off. */
  datatype Config = Config(quota: int, maxBlob: int, retain: int)

  /** Where a call in flight stands. */
  datatype Op =
    | PutReady(sha: string, body: string)
    | PutAbsent(sha: string, body: string)   // holds the mutex, stat found nothing
    | PutCleared(sha: string, body: string)  // holds the mutex, within quota
    | PutWritten(sha: string, body: string)  // holds the mutex, on disk, not charged
    | Sweeping(cutoff: int, todo: seq<string>)
    | SweepStale(cutoff: int, todo: seq<string>, name: string, size: nat)
    | SweepOwing(cutoff: int, todo: seq<string>, size: nat)  // removed, not debited

  datatype Store = Store(disk: map<string, Entry>, used: int, lock: Option<nat>, ops: map<nat, Op>)

  datatype Action =
    | StartPut(t: nat, sha: string, body: string, authorized: bool)
    | LockAndStat(t: nat)
    | CheckQuota(t: nat)
    | Write(t: nat, now: int, ok: bool)
    | Charge(t: nat)
    | StartSweep(t: nat, now: int, listing: seq<string>)
    | StatNext(t: nat, ok: bool)
    | Remove(t: nat, ok: bool)
    | Debit(t: nat)
    | EndSweep(t: nat)

  /** hex.DecodeString takes either case. */
  predicate ValidSha(name: string) { |name| == 64 && All(name, IsHex) }

  predicate IsBlob(name: string, e: Entry) { e.File? && ValidSha(name) }

  function BlobSize(name: string, e: Entry): nat { if IsBlob(name, e) then |e.body| else 0 }

  /** What Put checks before it takes the mutex. */
  predicate Admits(cfg: Config, digest: string -> string, sha: string, body: string, authorized: bool) {
    && ValidSha(sha)
    && authorized
    && (cfg.maxBlob > 0 ==> |body| <= cfg.maxBlob)
    && digest(body) == sha
  }

  predicate WithinQuota(cfg: Config, used: int, body: string) {
    !(cfg.quota > 0 && used + |body| > cfg.quota)
  }

  /** Sweep takes the blob files of a directory listing, in listing order. */
  function BlobNames(disk: map<string, Entry>, listing: seq<string>): seq<string> {
    if listing == [] then []
    else if listing[0] in disk && IsBlob(listing[0], disk[listing[0]])
    then [listing[0]] + BlobNames(disk, listing[1..])
    else BlobNames(disk, listing[1..])
  }

  function Finish(s: Store, t: nat): Store { s.(lock := None, ops := s.ops - {t}) }

  function Goto(s: Store, t: nat, op: Op): Store { s.(ops := s.ops[t := op]) }

  /** One step; an action that is not enabled changes nothing. */
  function Step(cfg: Config, digest: string -> string, s: Store, a: Action): Store {
    match a
    case StartPut(t, sha, body, authorized) =>
      if t in s.ops || !Admits(cfg, digest, sha, body, authorized) then s
      else Goto(s, t, PutReady(sha, body))
    case LockAndStat(t) =>
      if !(t in s.ops && s.ops[t].PutReady? && s.lock.None?) then s
      else if s.ops[t].sha in s.disk then Finish(s, t)
      else Goto(s, t, PutAbsent(s.ops[t].sha, s.ops[t].body)).(lock := Some(t))
    case CheckQuota(t) =>
      if !(t in s.ops && s.ops[t].PutAbsent?) then s
      else if !WithinQuota(cfg, s.used, s.ops[t].body) then Finish(s, t)
      else Goto(s, t, PutCleared(s.ops[t].sha, s.ops[t].body))
    case Write(t, now, ok) =>
      if !(t in s.ops && s.ops[t].PutCleared?) then s
      else if !ok then Finish(s, t)
      else Goto(s, t, PutWritten(s.ops[t].sha, s.ops[t].body))
           .(disk := s.disk[s.ops[t].sha := File(s.ops[t].body, now)])
    case Charge(t) =>
      if !(t in s.ops && s.ops[t].PutWritten?) then s
      else Finish(s, t).(used := s.used + |s.ops[t].body|)
    case StartSweep(t, now, listing) =>
      if t in s.ops || cfg.retain <= 0 then s
      else Goto(s, t, Sweeping(now - cfg.retain, BlobNames(s.disk, listing)))
    case StatNext(t, ok) =>
      if !(t in s.ops && s.ops[t].Sweeping? && s.ops[t].todo != []) then s
      else
        var Sweeping(cutoff, todo) := s.ops[t];
        var name := todo[0];
        if ok && name in s.disk && s.disk[name].File? && s.disk[name].mtime < cutoff
        then Goto(s, t, SweepStale(cutoff, todo[1..], name, |s.disk[name].body|))
        else Goto(s, t, Sweeping(cutoff, todo[1..]))
    case Remove(t, ok) =>
      if !(t in s.ops && s.ops[t].SweepStale?) then s
      else
        var SweepStale(cutoff, todo, name, size) := s.ops[t];
        if ok && name in s.disk
        then Goto(s, t, SweepOwing(cutoff, todo, size)).(disk := s.disk - {name})
        else Goto(s, t, Sweeping(cutoff, todo))
    case Debit(t) =>
      if !(t in s.ops && s.ops[t].SweepOwing? && s.lock.None?) then s
      else Goto(s, t, Sweeping(s.ops[t].cutoff, s.ops[t].todo)).(used := s.used - s.ops[t].size)
    case EndSweep(t) =>
      if !(t in s.ops && s.ops[t].Sweeping? && s.ops[t].todo == []) then s
      else s.(ops := s.ops - {t})
  }

  function Run(cfg: Config, digest: string -> string, s: Store, run: seq<Action>): Store {
    if run == [] then s
    else Step(cfg, digest, Run(cfg, digest, s, run[..|run| - 1]), run[|run| - 1])
  }

  // ---- What is counted ----

  function BlobSizes(disk: map<string, Entry>): map<string, int> {
    map n | n in disk :: BlobSize(n, disk[n])
  }

  ghost function BlobBytes(disk: map<string, Entry>): int { Sum(BlobSizes(disk)) }

  function OwedBy(op: Op): nat { if op.SweepOwing? then op.size else 0 }
  function UnchargedBy(op: Op): nat { if op.PutWritten? then |op.body| else 0 }

  function Weights(ops: map<nat, Op>, weight: Op -> nat): map<nat, int> {
    map t | t in ops :: weight(ops[t])
  }

  ghost function OpSum(ops: map<nat, Op>, weight: Op -> nat): int { Sum(Weights(ops, weight)) }

  /** Bytes removed from disk whose debit is still to come. */
  ghost function Owed(s: Store): int { OpSum(s.ops, OwedBy) }

  /** Bytes on disk whose charge is still to come. */
  ghost function Uncharged(s: Store): int { OpSum(s.ops, UnchargedBy) }

  /** How far the counter is from what is on disk, given the calls in flight. */
  ghost function Gap(s: Store): int { s.used + Uncharged(s) - BlobBytes(s.disk) - Owed(s) }

  /** The state the opening scan leaves. */
  ghost function Scanned(disk: map<string, Entry>): Store {
    Store(disk, BlobBytes(disk), None, map[])
  }

  /** By how much a removal will be debited short: the removed file need not be the one Sweep looked at. */
  function Misdebit(s: Store, a: Action): int {
    if a.Remove? && a.ok && a.t in s.ops && s.ops[a.t].SweepStale? && s.ops[a.t].name in s.disk
    then BlobSize(s.ops[a.t].name, s.disk[s.ops[a.t].name]) - s.ops[a.t].size
    else 0
  }

  function TotalMisdebit(cfg: Config, digest: string -> string, s: Store, run: seq<Action>): int {
    if run == [] then 0
    else
      var before := run[..|run| - 1];
      TotalMisdebit(cfg, digest, s, before) + Misdebit(Run(cfg, digest, s, before), run[|run| - 1])
  }

  lemma BlobBytesSet(disk: map<string, Entry>, name: string, e: Entry)
    ensures BlobBytes(disk[name := e])
         == BlobBytes(disk) + BlobSize(name, e) - (if name in disk then BlobSize(name, disk[name]) else 0)
  {
    assert BlobSizes(disk[name := e]) == BlobSizes(disk)[name := BlobSize(name, e)];
    SumUpdate(BlobSizes(disk), name, BlobSize(name, e));
  }

  lemma BlobBytesDrop(disk: map<string, Entry>, name: string)
    requires name in disk
    ensures BlobBytes(disk - {name}) == BlobBytes(disk) - BlobSize(name, disk[name])
  {
    assert BlobSizes(disk - {name}) == BlobSizes(disk) - {name};
    SumWithout(BlobSizes(disk), name);
  }

  lemma BlobBytesNonNegative(disk: map<string, Entry>)
    ensures BlobBytes(disk) >= 0
  {
    SumNonNegative(BlobSizes(disk));
  }

  lemma OpSumSet(ops: map<nat, Op>, t: nat, op: Op, weight: Op -> nat)
    ensures OpSum(ops[t := op], weight)
         == OpSum(ops, weight) + weight(op) - (if t in ops then weight(ops[t]) else 0)
  {
    assert Weights(ops[t := op], weight) == Weights(ops, weight)[t := weight(op)];
    SumUpdate(Weights(ops, weight), t, weight(op));
  }

  lemma OpSumDrop(ops: map<nat, Op>, t: nat, weight: Op -> nat)
    requires t in ops
    ensures OpSum(ops - {t}, weight) == OpSum(ops, weight) - weight(ops[t])
  {
    assert Weights(ops - {t}, weight) == Weights(ops, weight) - {t};
    SumWithout(Weights(ops, weight), t);
  }

  lemma OpSumNonNegative(ops: map<nat, Op>, weight: Op -> nat)
    ensures OpSum(ops, weight) >= 0
    ensures forall t :: t in ops ==> weight(ops[t]) <= OpSum(ops, weight)
  {
    SumNonNegative(Weights(ops, weight));
    assert forall t :: t in ops ==> t in Weights(ops, weight) && Weights(ops, weight)[t] == weight(ops[t]);
  }

  // ---- The lock discipline ----

  predicate InCritical(op: Op) { op.PutAbsent? || op.PutCleared? || op.PutWritten? }
  predicate IsPut(op: Op) { op.PutReady? || InCritical(op) }

  ghost predicate Disciplined(cfg: Config, s: Store) {
    && (forall t :: t in s.ops && InCritical(s.ops[t]) ==> s.lock == Some(t))
    && (s.lock.Some? ==> s.lock.value in s.ops && InCritical(s.ops[s.lock.value]))
    && (forall t :: t in s.ops && IsPut(s.ops[t]) ==> ValidSha(s.ops[t].sha))
    && (forall t :: t in s.ops && (s.ops[t].PutAbsent? || s.ops[t].PutCleared?) ==> s.ops[t].sha !in s.disk)
    && (forall t :: t in s.ops && (s.ops[t].PutCleared? || s.ops[t].PutWritten?) ==>
          WithinQuota(cfg, s.used, s.ops[t].body))
  }

  lemma StepDisciplined(cfg: Config, digest: string -> string, s: Store, a: Action)
    requires Disciplined(cfg, s)
    ensures Disciplined(cfg, Step(cfg, digest, s, a))
  {}

  lemma StepOps(cfg: Config, digest: string -> string, s: Store, a: Action, weight: Op -> nat)
    ensures var ops' := Step(cfg, digest, s, a).ops;
            OpSum(ops', weight) == OpSum(s.ops, weight)
                                   + (if a.t in ops' then weight(ops'[a.t]) else 0)
                                   - (if a.t in s.ops then weight(s.ops[a.t]) else 0)
  {
    var ops' := Step(cfg, digest, s, a).ops;
    if a.t in ops' {
      assert ops' == s.ops[a.t := ops'[a.t]];
      OpSumSet(s.ops, a.t, ops'[a.t], weight);
    } else if a.t in s.ops {
      OpSumDrop(s.ops, a.t, weight);
    }
  }

  lemma StepBytes(cfg: Config, digest: string -> string, s: Store, a: Action)
    requires Disciplined(cfg, s)
    ensures var s' := Step(cfg, digest, s, a);
            BlobBytes(s'.disk) == BlobBytes(s.disk)
              + (if a.Write? && s'.disk != s.disk then |s.ops[a.t].body| else 0)
              - (if a.Remove? && s'.disk != s.disk then BlobSize(s.ops[a.t].name, s.disk[s.ops[a.t].name]) else 0)
  {
    var s' := Step(cfg, digest, s, a);
    if s'.disk != s.disk {
      if a.Write? {
        BlobBytesSet(s.disk, s.ops[a.t].sha, File(s.ops[a.t].body, a.now));
      } else {
        BlobBytesDrop(s.disk, s.ops[a.t].name);
      }
    }
  }

  lemma StepOwed(cfg: Config, digest: string -> string, s: Store, a: Action)
    ensures var s' := Step(cfg, digest, s, a);
            Owed(s') == Owed(s) + (if a.Remove? && s'.disk != s.disk then s.ops[a.t].size else 0)
                                + (if a.Debit? then s'.used - s.used else 0)
  {
    StepOps(cfg, digest, s, a, OwedBy);
  }

  lemma StepUncharged(cfg: Config, digest: string -> string, s: Store, a: Action)
    requires Disciplined(cfg, s)
    ensures var s' := Step(cfg, digest, s, a);
            Uncharged(s') == Uncharged(s) + (if a.Write? && s'.disk != s.disk then |s.ops[a.t].body| else 0)
                                          - (if a.Charge? then s'.used - s.used else 0)
  {
    StepOps(cfg, digest, s, a, UnchargedBy);
  }

  lemma StepBalance(cfg: Config, digest: string -> string, s: Store, a: Action)
    requires Disciplined(cfg, s)
    ensures Gap(Step(cfg, digest, s, a)) == Gap(s) + Misdebit(s, a)
  {
    StepOwed(cfg, digest, s, a);
    StepUncharged(cfg, digest, s, a);
    StepBytes(cfg, digest, s, a);
  }

  function Max(a: int, b: int): int { if a < b then b else a }

  lemma StepCapped(cfg: Config, digest: string -> string, s: Store, a: Action, bound: int)
    requires Disciplined(cfg, s)
    requires cfg.quota > 0 && cfg.quota <= bound && s.used <= bound
    ensures Step(cfg, digest, s, a).used <= bound
  {}

  /** The counter of any run, whatever the files held at the start and however the calls interleave. */
  lemma {:induction false} RunBalance(cfg: Config, digest: string -> string, disk: map<string, Entry>, run: seq<Action>)
    ensures Disciplined(cfg, Run(cfg, digest, Scanned(disk), run))
    ensures Gap(Run(cfg, digest, Scanned(disk), run)) == TotalMisdebit(cfg, digest, Scanned(disk), run)
    ensures cfg.quota > 0 ==> Run(cfg, digest, Scanned(disk), run).used <= Max(cfg.quota, BlobBytes(disk))
  {
    if run == [] {
    } else {
      var before := run[..|run| - 1];
      RunBalance(cfg, digest, disk, before);
      var s, a := Run(cfg, digest, Scanned(disk), before), run[|run| - 1];
      StepDisciplined(cfg, digest, s, a);
      StepBalance(cfg, digest, s, a);
      if cfg.quota > 0 { StepCapped(cfg, digest, s, a, Max(cfg.quota, BlobBytes(disk))); }
    }
  }

  lemma {:induction false} BlobNamesValid(disk: map<string, Entry>, listing: seq<string>)
    ensures forall n :: n in BlobNames(disk, listing) ==> ValidSha(n)
  {
    if listing != [] { BlobNamesValid(disk, listing[1..]); }
  }

  lemma StepLeavesOthers(cfg: Config, digest: string -> string, s: Store, a: Action, t: nat)
    requires t != a.t
    ensures t in Step(cfg, digest, s, a).ops <==> t in s.ops
    ensures t in s.ops ==> Step(cfg, digest, s, a).ops[t] == s.ops[t]
  {}

  /** Only the holder of the mutex can have written without charging. */
  lemma UnchargedIsTheLockHolders(cfg: Config, s: Store)
    requires Disciplined(cfg, s)
    ensures Uncharged(s) == if s.lock.Some? then UnchargedBy(s.ops[s.lock.value]) else 0
  {
    var w := Weights(s.ops, UnchargedBy);
    if s.lock.Some? {
      var t := s.lock.value;
      SumWithout(w, t);
      SumOfZeros(w - {t});
    } else {
      SumOfZeros(w);
    }
  }

  lemma {:induction false} SumOfZeros<K(!new)>(m: map<K, int>)
    requires forall k :: k in m ==> m[k] == 0
    ensures Sum(m) == 0
    decreases |m|
  {
    if k :| k in m {
      SumWithout(m, k);
      SumOfZeros(m - {k});
    }
  }

  /** A Debit finds the mutex free, so `used` covers what it takes off. */
  lemma StepNonNegative(cfg: Config, digest: string -> string, s: Store, a: Action)
    requires Disciplined(cfg, s) && Gap(s) == 0 && 0 <= s.used
    ensures 0 <= Step(cfg, digest, s, a).used
  {
    if a.Debit? && a.t in s.ops && s.ops[a.t].SweepOwing? {
      BlobBytesNonNegative(s.disk);
      OpSumNonNegative(s.ops, OwedBy);
      UnchargedIsTheLockHolders(cfg, s);
    }
  }

  ghost predicate NeverMisdebited(cfg: Config, digest: string -> string, s: Store, run: seq<Action>) {
    forall k :: 0 <= k <= |run| ==> TotalMisdebit(cfg, digest, s, run[..k]) == 0
  }

  lemma NeverMisdebitedBefore(cfg: Config, digest: string -> string, s: Store, run: seq<Action>)
    requires NeverMisdebited(cfg, digest, s, run)
    ensures TotalMisdebit(cfg, digest, s, run) == 0
    ensures run != [] ==> NeverMisdebited(cfg, digest, s, run[..|run| - 1])
  {
    assert run[..|run|] == run;
    if run != [] {
      var before := run[..|run| - 1];
      forall k | 0 <= k <= |before|
        ensures TotalMisdebit(cfg, digest, s, before[..k]) == 0
      {
        assert before[..k] == run[..k];
      }
    }
  }

  lemma {:induction false} UsedNonNegative(
      cfg: Config, digest: string -> string, disk: map<string, Entry>, run: seq<Action>)
    requires NeverMisdebited(cfg, digest, Scanned(disk), run)
    ensures 0 <= Run(cfg, digest, Scanned(disk), run).used
  {
    if run == [] {
      BlobBytesNonNegative(disk);
    } else {
      var before := run[..|run| - 1];
      NeverMisdebitedBefore(cfg, digest, Scanned(disk), run);
      UsedNonNegative(cfg, digest, disk, before);
      RunBalance(cfg, digest, disk, before);
      StepNonNegative(cfg, digest, Run(cfg, digest, Scanned(disk), before), run[|run| - 1]);
    }
  }

  /**
   The counter is the bytes on disk plus those removed and not yet debited (less a
   Put's last file between its write and its charge), it is never negative, and disk
   bytes never pass the larger of the quota and the opening scan.
   */
  ghost predicate Accounted(cfg: Config, opening: int, s: Store) {
    && s.used + Uncharged(s) == BlobBytes(s.disk) + Owed(s)
    && (s.lock.None? ==> Uncharged(s) == 0)
    && (s.ops == map[] ==> s.used == BlobBytes(s.disk))
    && 0 <= s.used
    && BlobBytes(s.disk) <= s.used + Uncharged(s)
    && (cfg.quota > 0 ==> s.used + Uncharged(s) <= Max(cfg.quota, opening))
  }

  lemma RunIsAccountedFor(cfg: Config, digest: string -> string, disk: map<string, Entry>, run: seq<Action>)
    requires NeverMisdebited(cfg, digest, Scanned(disk), run)
    ensures Accounted(cfg, BlobBytes(disk), Run(cfg, digest, Scanned(disk), run))
  {
    NeverMisdebitedBefore(cfg, digest, Scanned(disk), run);
    RunBalance(cfg, digest, disk, run);
    UsedNonNegative(cfg, digest, disk, run);
    var s := Run(cfg, digest, Scanned(disk), run);
    OpSumNonNegative(s.ops, OwedBy);
    UnchargedIsTheLockHolders(cfg, s);
  }

  // ---- One Sweep at a time ----

  predicate IsSweep(op: Op) { op.Sweeping? || op.SweepStale? || op.SweepOwing? }

  ghost predicate OneSweep(s: Store) {
    forall t, u :: t in s.ops && u in s.ops && IsSweep(s.ops[t]) && IsSweep(s.ops[u]) ==> t == u
  }

  ghost predicate OneSweepThroughout(cfg: Config, digest: string -> string, s: Store, run: seq<Action>) {
    forall k :: 0 <= k <= |run| ==> OneSweep(Run(cfg, digest, s, run[..k]))
  }

  ghost predicate TodoValid(s: Store) {
    forall t, n :: t in s.ops && IsSweep(s.ops[t]) && n in s.ops[t].todo ==> ValidSha(n)
  }

  ghost predicate StaleNow(s: Store) {
    forall t :: t in s.ops && s.ops[t].SweepStale? ==>
      var SweepStale(cutoff, _, name, size) := s.ops[t];
      name in s.disk && IsBlob(name, s.disk[name])
      && s.disk[name].mtime < cutoff && |s.disk[name].body| == size
  }

  /** The file a Sweep is about to remove is still the one it found stale. */
  ghost predicate StaleIntact(s: Store) { TodoValid(s) && StaleNow(s) }

  lemma StepTodoValid(cfg: Config, digest: string -> string, s: Store, a: Action)
    requires TodoValid(s)
    ensures TodoValid(Step(cfg, digest, s, a))
  {
    if a.StartSweep? { BlobNamesValid(s.disk, a.listing); }
  }

  lemma StepIntact(cfg: Config, digest: string -> string, s: Store, a: Action)
    requires Disciplined(cfg, s) && OneSweep(s) && StaleIntact(s)
    ensures StaleIntact(Step(cfg, digest, s, a))
  {
    StepTodoValid(cfg, digest, s, a);
  }

  /**
   With at most one Sweep in flight, in every state of every run and with nothing
   assumed of the digest or of the files: no debit is wrong, and the next removal
   can only take a blob older than the Sweep's cutoff.
   */
  lemma {:induction false} OneSweepIsSafe(
      cfg: Config, digest: string -> string, disk: map<string, Entry>, run: seq<Action>)
    requires OneSweepThroughout(cfg, digest, Scanned(disk), run)
    ensures StaleIntact(Run(cfg, digest, Scanned(disk), run))
    ensures TotalMisdebit(cfg, digest, Scanned(disk), run) == 0
  {
    if run != [] {
      var before := run[..|run| - 1];
      forall k | 0 <= k <= |before|
        ensures OneSweep(Run(cfg, digest, Scanned(disk), before[..k]))
      {
        assert before[..k] == run[..k];
      }
      OneSweepIsSafe(cfg, digest, disk, before);
      RunBalance(cfg, digest, disk, before);
      StepIntact(cfg, digest, Run(cfg, digest, Scanned(disk), before), run[|run| - 1]);
    }
  }

  /** So with one Sweep at a time the store is accounted for, whatever its files and the digest. */
  lemma OneSweepIsAccountedFor(cfg: Config, digest: string -> string, disk: map<string, Entry>, run: seq<Action>)
    requires OneSweepThroughout(cfg, digest, Scanned(disk), run)
    ensures Accounted(cfg, BlobBytes(disk), Run(cfg, digest, Scanned(disk), run))
  {
    forall k | 0 <= k <= |run|
      ensures TotalMisdebit(cfg, digest, Scanned(disk), run[..k]) == 0
    {
      assert forall j :: 0 <= j <= k ==> run[..k][..j] == run[..j];
      OneSweepIsSafe(cfg, digest, disk, run[..k]);
    }
    RunIsAccountedFor(cfg, digest, disk, run);
  }

  ghost predicate IsTrace(cfg: Config, digest: string -> string, states: seq<Store>, run: seq<Action>) {
    && |states| == |run| + 1
    && forall i :: 0 <= i < |run| ==> Step(cfg, digest, states[i], run[i]) == states[i + 1]
  }

  lemma {:induction false} TraceIsRun(cfg: Config, digest: string -> string, states: seq<Store>, run: seq<Action>)
    requires IsTrace(cfg, digest, states, run)
    ensures Run(cfg, digest, states[0], run) == states[|run|]
  {
    if run != [] { TraceIsRun(cfg, digest, states[..|run|], run[..|run| - 1]); }
  }

  lemma {:induction false} RunConcat(cfg: Config, digest: string -> string, s: Store, a: seq<Action>, b: seq<Action>)
    ensures Run(cfg, digest, s, a + b) == Run(cfg, digest, Run(cfg, digest, s, a), b)
  {
    if b == [] {
      assert a + b == a;
    } else {
      var init, last := b[..|b| - 1], b[|b| - 1];
      RunConcat(cfg, digest, s, a, init);
      assert (a + b)[..|a + b| - 1] == a + init && (a + b)[|a + b| - 1] == last;
    }
  }

  // ---- A call run alone ----

  /** The outcome of a Put with nothing else in flight: every refusal leaves the store as it was. */
  datatype PutOutcome = Refused | AlreadyStored | OverQuota | WriteFailed | Stored

  function OutcomeOf(
      cfg: Config, digest: string -> string, disk: map<string, Entry>, used: int,
      sha: string, body: string, authorized: bool, writes: bool): PutOutcome
  {
    if !Admits(cfg, digest, sha, body, authorized) then Refused
    else if sha in disk then AlreadyStored
    else if !WithinQuota(cfg, used, body) then OverQuota
    else if !writes then WriteFailed
    else Stored
  }

  function PutSchedule(t: nat, sha: string, body: string, authorized: bool, now: int, writes: bool): seq<Action> {
    [StartPut(t, sha, body, authorized), LockAndStat(t), CheckQuota(t), Write(t, now, writes), Charge(t)]
  }

  /** The five steps of a Put in a row, whatever other calls have in flight, if the mutex is free. */
  lemma SoloPut(
      cfg: Config, digest: string -> string, s: Store, t: nat,
      sha: string, body: string, authorized: bool, now: int, writes: bool)
    requires s.lock.None? && t !in s.ops
    ensures Run(cfg, digest, s, PutSchedule(t, sha, body, authorized, now, writes))
         == if OutcomeOf(cfg, digest, s.disk, s.used, sha, body, authorized, writes).Stored?
            then s.(disk := s.disk[sha := File(body, now)], used := s.used + |body|)
            else s
  {
    var s1 := Step(cfg, digest, s, StartPut(t, sha, body, authorized));
    var s2 := Step(cfg, digest, s1, LockAndStat(t));
    var s3 := Step(cfg, digest, s2, CheckQuota(t));
    var s4 := Step(cfg, digest, s3, Write(t, now, writes));
    var s5 := Step(cfg, digest, s4, Charge(t));
    TraceIsRun(cfg, digest, [s, s1, s2, s3, s4, s5], PutSchedule(t, sha, body, authorized, now, writes));
    SoloPutStates(cfg, digest, s, t, sha, body, authorized, now, writes);
  }

  lemma SoloPutStates(
      cfg: Config, digest: string -> string, s: Store, t: nat,
      sha: string, body: string, authorized: bool, now: int, writes: bool)
    requires s.lock.None? && t !in s.ops
    ensures var s1 := Step(cfg, digest, s, StartPut(t, sha, body, authorized));
            var s2 := Step(cfg, digest, s1, LockAndStat(t));
            var s3 := Step(cfg, digest, s2, CheckQuota(t));
            var s4 := Step(cfg, digest, s3, Write(t, now, writes));
            var s5 := Step(cfg, digest, s4, Charge(t));
            if OutcomeOf(cfg, digest, s.disk, s.used, sha, body, authorized, writes).Stored?
            then s5 == s.(disk := s.disk[sha := File(body, now)], used := s.used + |body|)
            else s5 == s
  {}
}
