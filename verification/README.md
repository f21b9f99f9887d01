# A verified model of the nsite gateway

The gateway serves static sites that authors publish as signed Nostr events (NIP-5A).
A request's host name is decoded to a site, the site's newest manifest event is looked
up and validated, the request path is normalised and looked up in the manifest, and the
blob with the listed hash is served from a cache or from the first server that returns
bytes with that hash. Beside that there are a local blob store with a quota and a
retention sweep, a store of unpacked npk archives, and a resolver of package releases.

This project models the parts of that with arithmetic, ordering, accounting or state,
and proves what they promise. Run `dafny verify dfyconfig.toml` to check it.

| module | what it models |
|---|---|
| `Outcome`, `Text`, `Numerals`, `MapSum` | options and results; Go string operations; positional numerals; sums over maps |
| `Label` | the host-label codec: 32-byte keys as 50 base36 digits, and the three label forms |
| `BlossomMachine`, `Blossom`, `BlossomBalance` | the local Blossom store, as interleaved steps of any number of calls, and as the object it is; when its counter is right |
| `BlobCache`, `Serve`, `Serving` | the least-recently-used blob cache; serving one blob through it, and many requests at once |
| `Nostr`, `Manifest`, `Validation`, `Aggregate` | events and tags, manifest validation, the served path map, the aggregate hash |
| `Arrivals`, `ManifestCache`, `Resolve`, `Npk` | newest-wins selection, the two-sided cache, lookups of manifests and releases |
| `RequestPath`, `Servable`, `BundlePath`, `Bundles` | request paths, paths inside a bundle, unpacking an archive |
| `Routing`, `Addressing`, `Delivery` | host routing and the configuration that makes it unambiguous; from a published manifest to its blob, and to the bytes sent |

Code that works step by step is modelled as methods and classes (`Blossom.Server`,
`BlobCache.BlobStore`, `ManifestCache.Cache`, `Resolve.Resolver`, `Bundles.BundleStore`,
`Routing.Server`, and the loops of `Validation`, `Npk`, `Arrivals`, `Aggregate`). Each
method is proved against a function, and the properties are lemmas about the functions.

## Findings

Where the code and what is written about it disagree, the model follows the code.

- The comment at `internal/nip5a/label.go:39-40` says that every 32-byte value is at least
  36^49. It is not (zero is not), so the padding matters (`Label.PaddedExactlyBelow`). What
  the code does rely on is the other side: 2^256 < 7 * 36^49 (`Label.KeySpace`), which keeps
  a named label from ever reading as `v...` or `npub1...`.
- `NamedLabel` does not check its `d`; its label decodes back exactly when `IsValidD(d)`.
- `BlobStore.Put` in `internal/cache/cache.go` adds the new size without taking off the size
  it overwrites. The counter is exact precisely when no live, non-empty blob was Put again
  (`BlobCache.ExactIffNoLiveRePut`); once the excess passes the quota every Put empties the
  cache. The gateway reaches this: two clients that ask for one uncached blob at once both
  store it (`Serving.TwoRequestsOvercount`). Served through `serveBlob`, the counter is exact
  precisely when no request stores a non-empty blob that another has stored since it asked
  and that is still cached (`Serving.ExactIffNoneOvertaken`, `Serving.OvertakenByAnother`).
- `serveBlob` asks the cache and opens the file in two steps. A store of another request in
  between can evict the blob, and the request ends in 404 although a server holds the blob
  (`Serving.EvictionTurnsAway`; `Serving.TurnedAwayExactly` says when).
- A reload (`cmd/nostrhost-nsite/main.go:70`) builds a second blob cache over the same
  directory, while requests in flight keep the first. What one evicts stays on the other's
  record (`Serving.SecondCacheStrands`), and only storing the blob again clears that
  (`BlobCache.StrandedStays`). As `Has` goes on saying yes, nothing stores it: every later
  request for the blob ends in 404, until the next reload (`Serving.StuckIsTurnedAway`).
- `BlobStore.Open` gives a last use to any file it opens, also to one `scan` would not take
  for a blob; the maps then differ (`BlobCache.OpenKeepsStep`).
- `Sweep` in `internal/blossomsrv/server.go` stats, removes and debits in three unguarded
  steps, so that two Sweeps at a time can debit a size that was never charged and drive
  `used` below zero (`BlossomBalance.TwoSweepsCanOverdraw`). The counter is right in every
  run if and only if there is no retention or, for each name, the file there at the start
  and whatever may be uploaded under it have one length (`BlossomBalance.BalancedExactly`).
  One Sweep at a time is safe whatever the files hold
  (`BlossomMachine.OneSweepIsAccountedFor`); the gateway's only call for a store is the one
  before it serves, `cmd/nostrhost-nsite/main.go:115`.
- The comments at `internal/resolve/resolve.go:40-43` and `internal/npk/catalogue.go:45-49`
  say that the newest *valid* event wins. The code takes the newest event and then validates
  it. With a valid event about, and where equal ids mean equal timestamps, a newest valid
  manifest is answered if and only if the newest event is itself valid
  (`Resolve.NewestValidWhereIdsFixTimes`); for releases, if and only if the first of the
  newest is usable (`Npk.NewestUsableExactly`). Inputs on which it is not are
  `Resolve.OlderValidManifestIsHidden` and `Npk.ValidReleaseCanBeHidden`.
- `newestEvent` skips an event whose id has arrived before, and does not look whether the id
  is that event's hash. An event that carries the newest manifest's id and arrives before it
  hides it (`Arrivals.RepeatedIdHidesExactly`), and the lookup can answer with an older one
  (`Resolve.RepeatedIdHidesManifest`). `Resolve.NewestValidManifestExactly` is the exact
  condition with nothing assumed of ids.
- A release is found by its first `name` tag and named by its last, so the release returned
  may not bear the name asked for (`Npk.NameCanDiffer`).
- `hostnameRe` is case-insensitive in its first label only. A gateway domain with a capital
  letter there passes `Validate`, and then no label and no apex request is ever routed
  (`Routing.CapitalDomainRoutesNoLabel`). The checks that keep custom domains apart from the
  gateway's own name then fail too: that name in lower case can be attached, and is served as
  the attached site (`Routing.GatewayNameIsTaken`, `Routing.OverlapIsRefusedExactly`).
- A Host header with the final dot of a fully qualified name leads nowhere, although the
  configuration accepts and strips that dot (`Routing.FinalDotIsLost`).
- A host that passes the TLS-ask gate passes the public gate. The two differ for snapshots in
  open mode alone (`Routing.CertificatesAreForServedHosts`), which the public gate admits and
  which are never served (`Addressing.SnapshotsAreNeverServed`).
- An attached domain is served in hosted mode only if its key is also listed under the
  sites (`Routing.AttachedDomainServedExactly`).
- A manifest may list paths that no request reaches: those with a percent sign or with two
  dots in a row inside a segment (`Servable.ManifestPathIsReachableExactly`).
- In `internal/npk/npk.go` the check `within` never decides: after `bundleRel`, and after the
  checks on a member's name, it always holds.

## Assumptions

- Strings are sequences of bytes. Only ASCII letters change case and only ASCII white space
  is trimmed. In `badPathChars` and `normalisePath` the loops over runes look for ASCII
  characters, which in UTF-8 is the same as looking for bytes. Of the letters that the
  case-insensitive part of `hostnameRe` matches, the model has the ASCII ones.
- sha256, signature and id checks, nip19, decompression and the tar format are function
  values that a caller supplies; nothing is assumed of them except where a lemma says so
  (that a hexadecimal digest has 64 characters, that a digest does not clash on the texts
  at hand, that nip19 decodes what it encoded for the key at hand).
- The file system is a map, time is an integer, and outcomes of file operations, directory
  listings, arrivals from relays and server replies are inputs, universally quantified.
- Error codes and messages are constructors of datatypes; `MissingLowerA` stands for
  `missing_a`, `MissingUpperA` for `missing_A`, and so on.
- Handlers run concurrently. Each call of the blob cache or of the manifest cache is one step,
  because it holds the mutex throughout (what a Put of the blob cache does before it takes
  the mutex touches only its own temporary file); steps of other requests fall between. A
  file once opened is read to its end as it was when opened.
- One blob cache and one Blossom store at a time use a directory, and nothing else changes it.
  `BlobCache.RunDrift` and what rests on it, `Serving.TurnedAwayExactly` among it, are for
  that case; what a second cache does is among the findings.
- A write in the Blossom store is one all-or-nothing step. Each file operation, and each
  section under the mutex between two of them, is one step of `BlossomMachine`.
- Relays are assumed to honour the filter they are sent where a lemma says `IsProper` or
  takes its arrivals from `Deliveries`.

## Model

| member | source | states |
|---|---|---|
| Label.KeySpace | internal/nip5a/label.go:41-52 | 36^49 < 2^256 = 16^64 < 7 * 36^49 < 36^50: the bounds that make 50 digits enough, and the padding needed |
| Label.EncodeIsFixed | internal/nip5a/label.go:41-52 | Base36Encode32 never takes its "exceeds 50 digits" branch: every key, in either case, gives the 50-digit base36 numeral of its value |
| Label.PaddedExactlyBelow | internal/nip5a/label.go:38-51 | padding happens exactly for keys below 36^49; the all-zero key is one, against the comment |
| Label.DecodeInvertsEncode | internal/nip5a/label.go:41-69 | every key encodes to 50 base36 digits that decode to the key in lower case |
| Label.EncodeInvertsDecode | internal/nip5a/label.go:41-69 | every accepted 50-digit string decodes to a lower-case key that encodes to that string |
| Label.FirstDigitAtMostSix | internal/nip5a/label.go:55-69 | an accepted 50-digit string starts with one of 0 to 6, never with a letter |
| Label.RulesAreDisjoint | internal/nip5a/label.go:105-132 | the npub, snapshot and named rules, each taken alone, accept disjoint sets of labels, and each decides exactly its own site type, so their order never matters |
| Label.DecodeInvertsNamed | internal/nip5a/label.go:72-86 | NamedLabel succeeds for every key, and its label decodes to that key and d exactly when d is valid; then it fits a DNS label |
| Label.DecodeInvertsSnapshot | internal/nip5a/label.go:89-95 | every snapshot label decodes to its event id |
| Label.AcceptedLabelsAreCanonical | internal/nip5a/label.go:105-132 | every accepted snapshot or named label is the label its own site encodes to; an npub label starts with npub1 and yields 64 characters |
| Label.LabelsAreInjective | internal/nip5a/label.go:105-132 | two accepted labels of one named or snapshot site are equal |
| BlossomMachine.RunBalance | internal/blossomsrv/server.go:108-296 | over every interleaving of any number of Puts and Sweeps from a scan: the lock discipline holds, the counter differs from disk bytes plus owed debits less uncharged bytes by exactly the wrong debits so far, and never passes the larger of quota and opening scan |
| BlossomMachine.RunIsAccountedFor | internal/blossomsrv/server.go:108-296 | in a run without wrong debits: used is disk bytes plus bytes removed and not yet debited, never negative, equal to disk bytes when no call is in flight, and disk bytes stay within the quota or the opening scan |
| BlossomMachine.OneSweepIsSafe | internal/blossomsrv/server.go:265-296 | with one Sweep at a time, whatever the digest and the files: no debit is wrong, and a removal takes only a blob older than the cutoff |
| BlossomMachine.OneSweepIsAccountedFor | internal/blossomsrv/server.go:265-296 | with one Sweep at a time the accounting holds in every run with no assumption on contents |
| BlossomBalance.BalancedExactly | internal/blossomsrv/server.go:173-296 | for any set of bodies that may be uploaded: the counter balances in every state of every run if and only if there is no retention, or for every name the file there at the start and all admissible bodies of its digest that the quota can hold have one length |
| BlossomBalance.StoreIsAccountedFor | internal/blossomsrv/server.go:173-296 | under that condition, which files that hash to their names meet unless digests clash on lengths (`BlossomBalance.ContentAddressedHasOneLength`), in every run with any number of Sweeps: used is disk bytes plus owed debits less uncharged bytes, never negative, exact when no call is in flight, and disk bytes stay within the quota or the opening scan |
| BlossomBalance.NamesStayTrue | internal/blossomsrv/server.go:202-224 | in every run whose opening blobs hash to their names, all blobs do |
| BlossomBalance.TwoLengthsUnbalance | internal/blossomsrv/server.go:265-296 | from any opening directory with two lengths for one name: a run of Sweeps and Puts after which the counter is off |
| BlossomBalance.TwoSweepsCanOverdraw | internal/blossomsrv/server.go:282-291 | a concrete such run, for any digest, after which used is -4 and the disk is empty |
| BlossomMachine.StepNonNegative | internal/blossomsrv/server.go:285-288 | a debit never takes the counter below zero while the accounts balance, because it finds the mutex free |
| BlossomMachine.UnchargedIsTheLockHolders | internal/blossomsrv/server.go:207-224 | bytes written and not yet charged are those of the call that holds the mutex, and none when it is free |
| BlossomMachine.SoloPut | internal/blossomsrv/server.go:175-227 | a Put that finds the mutex free and runs its steps in a row stores and charges the body, or leaves the store as it was, by the outcome of its checks in order, whatever else is in flight |
| Blossom.Server.constructor | internal/blossomsrv/server.go:79-126 | a new server has counted exactly the blob files of its directory |
| Blossom.Server.Put | internal/blossomsrv/server.go:175-227 | is the machine's run of a Put; its result tells each outcome; on success the blob is there under its digest; a changed disk means one new file and its size charged |
| Blossom.Server.Sweep | internal/blossomsrv/server.go:265-296 | removes exactly the removable blobs older than the cutoff, takes exactly their bytes off the counter, returns their number, and is the machine's run of a Sweep |
| Blossom.SweepThroughRemovesStale | internal/blossomsrv/server.go:274-291 | the loop over a listing takes away exactly its stale blobs, their bytes and their count |
| Blossom.SoloSweep | internal/blossomsrv/server.go:265-296 | the sequential effect of a Sweep is a run of the interleaved machine |
| BlobCache.EvictsShortestPrefix | internal/cache/cache.go:128-149 | eviction goes through the shortest prefix of its order that brings the counter to the quota, or through all of it |
| BlobCache.EvictAllRemovesVictims | internal/cache/cache.go:139-148 | going through a prefix removes exactly its removable names from sizes, last uses and disk, and leaves the drift as it was |
| BlobCache.EvictionIsLeastRecentlyUsed | internal/cache/cache.go:127-149 | no evicted blob was used after a removable one that stayed; the three maps stay in step; other files are untouched; if the quota is still passed, only blobs that cannot be removed are left |
| BlobCache.OpenedGoesLast | internal/cache/cache.go:77-86 | use protects: in the next Put the blob opened last goes only after every removable blob but the one being Put |
| BlobCache.PutGoesLast | internal/cache/cache.go:120-123 | the blob being Put, if later than every use, goes only after every removable other |
| BlobCache.PutStaysWithinQuota | internal/cache/cache.go:115-125 | when removals succeed the stored sizes fit the quota after a Put however far the counter has drifted, and a drift above the quota leaves no blob |
| BlobCache.RunDrift | internal/cache/cache.go:45-149 | over every run of Open and Put from a scan: sizes, last uses and disk keep the same keys, and the counter exceeds the sizes by exactly the sizes that Puts overwrote, an excess that never shrinks |
| BlobCache.ExactIffNoLiveRePut | internal/cache/cache.go:119-123 | the counter equals the stored sizes if and only if no live, non-empty blob was Put again |
| BlobCache.EveryPutFitsQuota | internal/cache/cache.go:90-149 | in every run every completed Put whose removals succeed leaves the blobs within the quota, and none once the total overcount passes it |
| BlobCache.PutKeepsContents | internal/cache/cache.go:90-125 | a Put never spoils a directory whose blobs hash to their names |
| BlobCache.StrandedStays | internal/cache/cache.go:115-149 | a name on record whose file is gone is never evicted; only storing it again clears it |
| BlobCache.BlobStore.constructor | internal/cache/cache.go:34-63 | the scan leaves sizes, last uses and counter in step with the directory, and an exact counter |
| BlobCache.BlobStore.Has | internal/cache/cache.go:70-74 | true exactly for a cached, non-empty blob |
| BlobCache.BlobStore.Open | internal/cache/cache.go:77-86 | the file's bytes, with its last use set, or nothing and no change |
| BlobCache.BlobStore.Put | internal/cache/cache.go:90-125 | refuses a wrong digest and a failed write without a change; otherwise stores, counts and evicts in an order by last use |
| BlobCache.BlobStore.EvictLocked | internal/cache/cache.go:128-149 | is the eviction loop over all keys sorted by last use |
| BlobCache.SortedByLastUse | internal/cache/cache.go:132-138 | every key once, least recently used first |
| Serve.FetchFirstIsFirst | internal/server/server.go:505-518 | fetching returns the first verifying server's bytes, fails only if none verifies, and what it returns has the digest asked for |
| Serving.EveryBodyVerifies | internal/server/server.go:443-492 | from a directory whose blobs hash to their names, in every interleaving of any number of requests: a body answered has the digest its ETag names, 304 is answered only to a client that named it, the maps stay in step and the blobs true to their names, and the counter exceeds the stored bytes by exactly what Puts overwrote |
| Serving.CacheIsItsCalls | internal/server/server.go:443-475 | the cache of an interleaved run is that of its cache calls in order, each a call the cache's own runs allow |
| Serving.ExactIffNoneOvertaken | internal/server/server.go:444-462 | over every interleaving the counter is exact if and only if no request stores a non-empty blob that has become live since it asked |
| Serving.OvertakenByAnother | internal/server/server.go:444-462 | what makes it live is another request's store of the same blob, after the first asked and before it stores |
| Serving.SingleFlightIsExact | internal/server/server.go:444-462 | so the counter is exact in every run where no two requests fetch one blob at a time |
| Serving.TurnedAwayExactly | internal/server/server.go:443-475 | a request told that the blob is cached ends in 404 exactly when the blob was evicted between its Has and its Open; one told it is not, exactly when its fetch gave nothing or an empty body |
| Serving.CacheIsInvisible | internal/server/server.go:443-475 | in every interleaving a body answered is what any verifying server gives, unless the digest clashes on the two |
| Serving.TwoRequestsOvercount | internal/server/server.go:444-462 | two requests for one uncached byte at once: a counter of 2 over one stored byte |
| Serving.EvictionTurnsAway | internal/server/server.go:444-470 | a request for a cached blob that a server also holds, ended in 404 by another request's store |
| Serving.SoloRequest | internal/server/server.go:443-492 | a request whose steps run in a row, whatever else is in flight, is served as by the handler run alone |
| Serving.StuckIsTurnedAway | internal/server/server.go:443-475 | from a state where a blob is on record, its file gone and no request about to store it: in every run every later request for it ends in 404, whatever the servers hold |
| Serving.SecondCacheStrands | internal/cache/cache.go:34-63 | a second cache over one directory brings the first to such a state by one eviction |
| Serve.FetchFirstLoop | internal/server/server.go:505-518 | the loop over servers is the recursive first-verifying selection |
| Serve.HandleBlob | internal/server/server.go:443-492 | serveBlob on the cache object, run as one call: its response and the cache it leaves, eviction by last use included |
| Nostr.FilterTagsLoop | internal/nip5a/manifest.go:83-91 | the loop is selection by name |
| Nostr.TagValuesLoop | internal/nip5a/manifest.go:73-81 | the loop is the values of the tags of a name that have one, in order |
| Nostr.SelectPicks | internal/nip5a/manifest.go:73-91 | what a tag selection holds: exactly the tags that satisfy it, and none only if none does |
| Nostr.SelectTwo | internal/nip5a/manifest.go:73-91 | a selection has more than one tag exactly when two positions satisfy it |
| Manifest.ErrorsAreDeserved | internal/nip5a/manifest.go:119-262 | for each of the 25 error codes: Validate reports it exactly when the event breaks the rule it stands for, each rule stated over the event's tags alone |
| Manifest.ValidExactly | internal/nip5a/manifest.go:119-262 | an event is accepted if and only if it is a manifest: id and signature, signer, kind, d, path, x and a/A rules together |
| Manifest.DedupeKeepsFirsts | internal/nip5a/manifest.go:289-302 | deduping keeps the set of codes, each once, in the order of first occurrences, and is empty only for the empty list |
| Manifest.DedupeInPlace | internal/nip5a/manifest.go:289-302 | the loop that writes its output over its own input computes that |
| Manifest.XCodesMean | internal/nip5a/manifest.go:208-224 | which x tags earn which codes |
| Manifest.AGroupMeans | internal/nip5a/manifest.go:226-257 | which counts and shapes of a and A tags earn which codes, independent of the order of the checks |
| Manifest.PathCodesMean | internal/nip5a/manifest.go:158-195 | which path tags earn which codes: each fault by the first rule a tag breaks, duplicates only among good tags; and the entries kept |
| Validation.CheckPaths | internal/nip5a/manifest.go:168-195 | the accumulating loop over path tags, with its set of seen paths, is the scan the specification uses |
| Validation.CheckX | internal/nip5a/manifest.go:208-224 | the checks on x tags, in order |
| Validation.CheckA | internal/nip5a/manifest.go:226-257 | the checks on a and A tags, in order |
| Validation.CollectErrors | internal/nip5a/manifest.go:134-257 | all checks in the order of the code give the raw list of errors, the valid paths and the computed hash |
| Validation.Validate | internal/nip5a/manifest.go:119-287 | the whole verdict; valid exactly when the event is a manifest |
| Validation.BuildPathMap | internal/server/server.go:350-356 | the loop that fills the path map, last entry winning |
| Validation.ServedPathsAreTheVerdicts | internal/server/server.go:350-356 | for a valid manifest the served map is the verdict's path list read as a function, with one entry per path tag |
| Validation.VerdictPathsAreEntries | internal/nip5a/manifest.go:175-194 | the paths of a verdict hold no newline and hashes of 64 characters, as the canonical form needs |
| Validation.AggregateIdentifiesContent | internal/nip5a/manifest.go:56-64 | two accepted manifests have the same aggregate hash exactly when their entries are permutations of one another, unless sha256 clashes on the two texts |
| Aggregate.SortedIsUnique | internal/nip5a/manifest.go:61 | a multiset of strings has one bytewise-sorted listing |
| Aggregate.ConcatDecodes | internal/nip5a/manifest.go:58-62 | newline-terminated lines are recovered from their concatenation |
| Aggregate.PreimageIsCanonical | internal/nip5a/manifest.go:56-64 | two lists of path entries have the same sorted, joined text if and only if one is a permutation of the other |
| Aggregate.HashIsCanonical | internal/nip5a/manifest.go:56-64 | the same of the hash, if it tells the two texts apart |
| Aggregate.AggregateHash | internal/nip5a/manifest.go:56-64 | the loop, sort and join hash exactly that text |
| Arrivals.NewestIsFirstNewest | internal/resolve/resolve.go:131-157 | the selection is the first arrival among those of greatest CreatedAt, and nothing only if nothing arrived |
| Arrivals.NewestIsMaximal | internal/resolve/resolve.go:131-157 | it is one of the arrivals and no arrival is newer |
| Arrivals.SkippingRepeatsChangesNothing | internal/resolve/resolve.go:145-150 | skipping repeated ids never changes the result when equal ids have equal timestamps |
| Arrivals.RepeatsCanMatter | internal/resolve/resolve.go:145-150 | without that, a repeat with a later timestamp is lost |
| Arrivals.NewestValidOnceExactly | internal/resolve/resolve.go:145-155 | with repeats skipped and nothing assumed of ids, the selection is a newest valid arrival if and only if it is valid and no valid repeat is newer |
| Arrivals.RepeatedIdHidesExactly | internal/resolve/resolve.go:145-150 | the first newest arrival is lost if and only if its id has arrived before, on any event |
| Arrivals.ArrivalOrderDoesNotMatter | internal/resolve/resolve.go:131-157 | with distinct timestamps for distinct events, every permutation of the arrivals gives the same result |
| Arrivals.NewestEvent | internal/resolve/resolve.go:131-157 | the loop, with and without skipping repeats |
| ManifestCache.RunIsExplained | internal/cache/cache.go:158-215 | in every run each map says of a key what its last store said, or has dropped it once expired |
| ManifestCache.NeverBoth | internal/cache/cache.go:202-215 | no key is ever held both ways |
| ManifestCache.AnswersAreTheLastStore | internal/cache/cache.go:179-215 | bounded staleness, exactly: a key answers what its last store said for as long as that store is within its lifetime, bounds included, and otherwise nothing |
| ManifestCache.AnswersWereStored | internal/cache/cache.go:179-215 | whatever holds of every value when stored holds of every answer |
| ManifestCache.Cache.Get | internal/cache/cache.go:179-188 | the fresh value, if any; an expired entry is dropped |
| ManifestCache.Cache.Negative | internal/cache/cache.go:191-199 | whether a miss is on record and fresh |
| ManifestCache.Cache.Put | internal/cache/cache.go:202-207 | stores the value with its expiry and forgets a miss |
| ManifestCache.Cache.PutNegative | internal/cache/cache.go:210-215 | records the miss with its expiry and forgets the value |
| Resolve.KeysTellSitesApart | internal/resolve/resolve.go:159-176 | with 64-character keys, equal cache keys mean equal filters and site types |
| Resolve.ReleaseKeysAreApart | internal/resolve/resolve.go:98-99 | a release's cache key is never a manifest's |
| Resolve.ReleaseKeysTellReleasesApart | internal/resolve/resolve.go:98-99 | equal release keys mean equal publisher and name |
| Resolve.SeenExactly | internal/resolve/resolve.go:49-58 | Get and Negative, each after its own history of interleaved calls, say what the last store of the key says there while it is fresh |
| Resolve.ManifestAnswersAreSound | internal/resolve/resolve.go:44-72 | after any interleaving of lookups that share the cache, calls between this lookup's own two included, a manifest answered passed Validate, matches the filter of the site asked for, and was selected now or stored at most ttl ago with nothing stored for the site since |
| Resolve.ManifestMissesExactly | internal/resolve/resolve.go:44-72 | a lookup misses if and only if no answer is fresh, and a miss was recorded at most negTTL ago or the event selected now is absent or invalid |
| Resolve.NewestValidManifestExactly | internal/resolve/resolve.go:60-71 | when some arrival is valid, an uncached lookup answers with a newest valid arrival if and only if the event selected is valid and no valid repeat of an id is newer, and with none if and only if the event selected is not valid |
| Resolve.NewestValidWhereIdsFixTimes | internal/resolve/resolve.go:60-71 | where ids fix timestamps, it answers with a newest valid arrival if and only if the newest arrival is itself valid |
| Resolve.RepeatedIdHidesManifest | internal/resolve/resolve.go:60-71 | an event with the id of the newest valid manifest, delivered before it: the lookup answers with an older one |
| Resolve.OlderValidManifestIsHidden | internal/resolve/resolve.go:60-71 | a valid one-page manifest and a newer event without pages: no manifest, in either order of arrival |
| Resolve.ReleaseAnswersAreSound | internal/resolve/resolve.go:98-125 | a release answered, or a miss, is the last stored one within its lifetime, or what the catalogue and then the relays give now |
| Resolve.Resolver.Manifest | internal/resolve/resolve.go:44-72 | the lookup on the cache object: its answer and the cache calls it makes, in order |
| Resolve.Resolver.Release | internal/resolve/resolve.go:98-125 | likewise for releases |
| Npk.ParseReleaseMeans | internal/npk/npk.go:107-131 | a release is parsed exactly from a kind-9900 event with a name, a version and a 64-digit x tag; the last of each wins, and the digest comes out in lower case |
| Npk.ResolversAgree | internal/npk/catalogue.go:50-87 | on the same events in the same order, with a relay to ask, Catalogue.Newest and NewestRelease return the same release |
| Npk.CatalogueReleaseIsSound | internal/npk/catalogue.go:50-87 | a release returned is parsed from a matching event than which none is newer, and which is not revoked |
| Npk.FirstNewestDecides | internal/npk/catalogue.go:65-86 | the first listed of the newest matches decides alone: it is returned if it parses and stands unrevoked, and otherwise none is |
| Npk.NewestUsableExactly | internal/npk/catalogue.go:65-86 | when some match is usable, a newest usable one is returned if and only if that first newest match is usable, and otherwise none |
| Npk.FirstNewestArrivalDecides | internal/npk/npk.go:61-89 | the same of the first of the newest arrivals from relays |
| Npk.NewestUsableArrivalExactly | internal/npk/npk.go:61-89 | when some arrival is usable, a newest usable one is returned if and only if the one selected is usable |
| Npk.ValidReleaseCanBeHidden | internal/npk/catalogue.go:65-86 | a valid release hidden by a newer unparsable event, and by one of the same second listed first, but not listed second |
| Npk.NameIsKeptExactlyWhen | internal/npk/npk.go:98-131 | the release bears the name asked for exactly when the first and last name tags of its event agree |
| Npk.NameCanDiffer | internal/npk/npk.go:98-131 | an event that is found as "a" and returned as "b" |
| Npk.ReleaseNameLoop | internal/npk/npk.go:98-105 | the loop is the first valued name tag |
| Npk.ParseReleaseLoop | internal/npk/npk.go:107-131 | the loop over tags is the parse |
| Npk.NewestReleaseLoop | internal/npk/npk.go:54-90 | the loop over arrivals is the newest arrival of that name, then parsed, then checked for revocation |
| Npk.CatalogueNewestLoop | internal/npk/catalogue.go:50-87 | the two loops over the catalogue are the same selection over its own lists |
| RequestPath.SqueezeIsHalve | internal/server/server.go:532 | splitting on "//" and joining on "/" is the one-pass halving of slash pairs |
| RequestPath.RunsAreHalved | internal/server/server.go:532 | a run of k slashes becomes one of ceil(k/2), and nothing around it changes |
| RequestPath.AcceptedExactly | internal/server/server.go:524-547 | a request path is accepted if and only if it decodes, and the decoded path is absolute, without percent sign, "..", backslash and control characters |
| RequestPath.AcceptedIsLookupPath | internal/server/server.go:524-554 | every accepted result is such a path with a dot in its last segment |
| RequestPath.UnescapeSpelled | internal/server/server.go:525-525 | every percent-encoding of a byte string decodes to it in one pass |
| RequestPath.SpellingDoesNotMatter | internal/server/server.go:524-547 | every percent-encoded spelling of a path is treated as the path itself |
| RequestPath.NormaliseLookupPath | internal/server/server.go:524-547 | normalising such a path again only halves its slashes, so it is a fixed point exactly when it has no "//" |
| RequestPath.FixedPointExactly | internal/server/server.go:524-547 | the result is a fixed point if and only if the decoded request had no run of three slashes or more |
| RequestPath.RequestableExactly | internal/server/server.go:524-554 | the paths that some request is normalised to are exactly those lookup paths |
| Servable.ManifestPathIsReachableExactly | internal/server/server.go:227-245 | a good manifest path is what some request outside /internal/ is normalised to if and only if it has no percent sign and nowhere two dots in a row |
| Servable.SomeManifestPathsAreUnreachable | internal/nip5a/manifest.go:93-113 | "/a..b" is a good manifest path that no request reaches |
| BundlePath.BundleRelExactly | internal/npk/npk.go:267-289 | bundleRel accepts exactly the absolute paths without backslash and ".." segment whose names, "." and empty segments dropped, are at least one and do not begin with the name ".npack"; and returns those names joined |
| BundlePath.CleanLeadsToTheSame | internal/npk/npk.go:276-276 | cleaning a path changes its spelling and not where it leads |
| BundlePath.WithinExactly | internal/npk/npk.go:291-304 | within accepts plain names below a root exactly when the root is not the file system's own, and they lead below it |
| BundlePath.OpenNeverEscapes | internal/npk/npk.go:233-245 | after bundleRel, within never refuses, and the file read is the bundle's directory followed by the names |
| BundlePath.CleanRequestIsItself | internal/npk/npk.go:267-289 | an absolute path of plain names is returned less its slash, unless its first name is ".npack" |
| BundlePath.MembersAreConfined | internal/npk/npk.go:330-337 | exactly which archive members pass the checks, and that each is placed below the destination |
| Bundles.ExtractLaysOutFiles | internal/npk/npk.go:320-365 | extraction that succeeds lays out exactly the archive's files, last member of a name winning; one that fails has touched only the destination |
| Bundles.UnpackPublishesWhole | internal/npk/npk.go:198-229 | on success exactly the archive's files are under the bundle's name, from bytes with that digest; on any failure but the final rename's the old bundle is as it was; nothing else changes and no temporary tree is left |
| Bundles.BundleStore.Store | internal/npk/npk.go:198-229 | Unpack step by step, result and file system |
| Bundles.BundleStore.ExtractTar | internal/npk/npk.go:320-365 | the loop over members is the extraction |
| Bundles.BundleStore.Open | internal/npk/npk.go:233-251 | for whatever digest it is given: a file is returned exactly when bundleRel accepts the path, the bundle's directory is not the root of the file system, and it holds the file under the path's names; for a digest of 64 digits that directory is the store's with the digest as name |
| Routing.ValidateExactly | internal/config/config.go:183-307 | the configurations Validate accepts, as far as routing goes: the custom domains fit the gateway and are distinct once normalised |
| Routing.CheckDomainsExactly | internal/config/config.go:283-305 | the loop with its set of seen names accepts exactly the lists whose domains each fit and are apart |
| Routing.CheckDomainsLoop | internal/config/config.go:283-305 | the loop, with its error for the first domain at fault |
| Routing.CustomMapIsFaithful | internal/server/server.go:96-107 | with distinct names the map has one entry per custom domain, each to its own site |
| Routing.Server.Apply | internal/server/server.go:87-109 | the loops of apply leave the allowlist and the custom map of the configuration |
| Routing.HostNameOf | internal/server/server.go:157-169 | a host name in any letter case, with or without a port, is read as the name in lower case |
| Routing.PaddingIsTrimmed | internal/server/server.go:157-169 | white space around a Host header changes nothing |
| Routing.AttachedDomainsRoute | internal/server/server.go:174-200 | under an accepted configuration every attached domain, in any case and with any port, leads to exactly its own site and is not shadowed by the gateway's domain |
| Routing.LabelsRoute | internal/server/server.go:174-200 | under a lower-case gateway domain a label leads where DecodeLabel says |
| Routing.FinalDotIsLost | internal/server/server.go:174-200 | a host name that ends in a dot leads nowhere |
| Routing.CapitalDomainRoutesNoLabel | internal/server/server.go:165-200 | a gateway domain that is not in lower case has no apex and serves no label |
| Routing.CapitalDomainIsAccepted | internal/config/config.go:180-189 | Validate accepts Example.com as gateway domain, and refuses example.Com |
| Routing.LabelsRouteExactly | internal/server/server.go:174-200 | for an accepted configuration, a label that decodes is routed to what it decodes to if and only if the gateway domain is in lower case |
| Routing.OverlapIsRefusedExactly | internal/config/config.go:292-297 | the overlap checks keep every custom name of every accepted configuration apart from the gateway's, as requests spell it, if and only if the domain is in lower case |
| Routing.GatewayNameIsTaken | internal/config/config.go:292-297 | under any domain with a capital, a configuration that Validate accepts and in which the gateway's own name leads to the custom site |
| Routing.AttachedDomainServedExactly | internal/server/server.go:208-245 | an attached domain passes the public gate exactly in open mode or when its key is listed |
| Addressing.NamedManifestIsAddressed | internal/nip5a/manifest.go:267-285 | the label of a valid named manifest routes to its author and d, and the filter built from them matches the event exactly when the author's key is in lower case |
| Addressing.RootManifestIsAddressed | internal/nip5a/manifest.go:267-272 | likewise for a valid root manifest at its author's npub, if nip19 decodes what it encoded |
| Addressing.SnapshotManifestIsAddressed | internal/nip5a/manifest.go:280-284 | the label of a valid snapshot routes back to its event id |
| Addressing.SitesServeExactly | internal/server/server.go:227-381 | an admitted request whose lookup answers, after any history of lookups, comes to the blob one manifest lists for the normalised path, else the one it lists for /404.html, else nothing, each exactly then; that manifest is valid, of the site the host names, and the last stored and fresh or the relays' newest; unless serveFromNpk answers first |
| Addressing.PublishedSiteServesExactly | internal/server/server.go:227-381 | the same for the own address of any valid root or named manifest, when the author is admitted and the cache holds that manifest or the relays deliver it as newest |
| Delivery.SiteBodiesVerify | internal/server/server.go:227-492 | any admitted request, after any lookups and in any interleaving with other requests, that is answered with a body: the body has the digest that one valid manifest of the site lists for the normalised path, or for /404.html when it lists nothing for that path; unless serveFromNpk answers first |
| Delivery.PublishedBodiesVerify | internal/server/server.go:227-492 | the same at the own address of a valid root or named manifest |
| Delivery.ListedIsProper | internal/server/server.go:346-381 | what sites ask the cache for are hashes of 64 characters, so that runs of site requests are runs of `Serving` |

## Left out

- HTTP headers, listeners, content types, metrics, signals and reload wiring: no invariant beyond single calls.
- Relay pools, web sockets, TLS, DNS and the dial-time address policy: a fetch is "bytes that hash to the digest, or nothing".
- `serveFromNpk`: where a site has a release it may answer before the blob is asked for, from the bundle or with 404; it checks the digest of the archive and not of each member. What is said of a request's blob is what `serveSite` hands to `serveBlob` when it does not.
- Snapshot serving: `serveSite` always passes an empty id, so snapshots end in 404; their labels and validation are modelled.
- The site type that `keyAndFilter` does not know: the type here has only the three.
- Concurrent `Unpack` calls for one digest: they share a temporary directory, and the store has no lock.
- Other users of a blob cache than `serveBlob`: there are none in the gateway; the second cache that a reload builds is among the findings.
- Partial writes, unreadable directory entries and subdirectories of the blob cache's directory: each file operation succeeds or fails whole.
- Failures of `RemoveAll` and `MkdirAll` in `Unpack`, empty directories and file modes: the file system here holds files only.
- The bundle store's `Has`: with files only, a bundle that is not there has no files to open.
- The authorisation event of a Blossom upload: its checks are one boolean of a Put.
- `BlobCount`, `SortedSHAs`, `Get` and `Has` of the Blossom store, and logging: single-line reads.
- The rest of `Config.Validate` (limits, URLs, listen addresses): independent one-line checks.
- Overflow of 64-bit counters and of time: integers here are unbounded.
- An absent fetcher, cache or resolver in the server's backends: each yields 404 at once.
- The author's server list (`BlossomServers`, `serverHints`): the list of servers is an input.
- The error result of `NewestRelease`: the code never returns one.
- Bundles.BundleStore.Open: of a store with a rooted working directory and a non-empty path, since the operating system gives the one and `NewBundleStore` refuses the other.
- Bundles.UnpackPublishesWhole: says nothing of the old bundle when the final rename fails, because the code has removed it by then.
- Serving.CacheIsInvisible: one way only, since a cached blob is also served when no server has it, and one that a server has is not when Serving.TurnedAwayExactly says so.
- Addressing.SitesServeExactly: up to the blob's hash, since serveFromNpk may answer first; Delivery.SiteBodiesVerify goes on to the body when it does not.
- Delivery.SiteBodiesVerify: takes the requests of the run to ask for hashes that manifests list, as the lookup of each one finds them.
- BlobCache.EveryPutFitsQuota: takes removals to succeed; when they fail the blobs that stay are those of BlobCache.EvictionIsLeastRecentlyUsed.
