# EggPool: release, qualification and runtime protocols in Dafny

EggPool ships a Rust proxy through a set of release and qualification scripts. This project models the parts of the
repository whose correctness is not visible from one function: the release manifest, which one script writes and
another re-derives; the release catalog; the diagnostics that `qualification_sbc.py` takes from a running proxy; the
resumable qualification matrix; the text and inventory transformations around a release; the atomic publication of
reviewed snapshots; and the publication, leasing and retirement of runtime generations inside the proxy.

`dafny verify dfyconfig.toml` checks everything. Every induction is written out: lemmas carry `{:induction false}`
wherever Dafny would otherwise add an induction hypothesis of its own.

| module | subject |
|---|---|
| `ResourceClose`, `Generations`, `Lifecycle`, `Shutdown`, `ShutdownUsers`, `StrandedShutdown` | publication, request leases, finalization jobs, retirement and the close at shutdown of runtime generations, as interleaved steps |
| `Encoding`, `Binaries`, `WheelName`, `Wheel` | digests, executables, wheel names and the wheel RECORD |
| `Proxies`, `DesktopHelpers`, `Manifest`, `Agreement`, `ArtifactSet` | the release manifest, its producer and its validator |
| `Version`, `Expansion`, `Catalog`, `TwinCatalog` | versions, template expansion and validation of the release catalog |
| `Transactions`, `Pairing`, `Histogram`, `Provider`, `Percentile`, `Phases`, `Throttle` | the diagnostics of `qualification_sbc.py` and the Rust collector behind them |
| `Matrix` | the resumable qualification matrix |
| `Workflow`, `HelperJobs`, `UnterminatedHelper` | job splitting and helper removal in workflow files |
| `Redaction`, `Publish`, `Migrations` | the diagnostic redactor, the atomic snapshot, the migration inventory |
| `Text`, `Json`, `Ring` | shared strings, JSON values and bounded logs |

Things the proofs brought out:

- Helper removal can leave the wrong text when the last job block is a helper without a final line break
  (`UnterminatedHelper`): another removal can bring an earlier copy of its text together. For helper texts that occur
  once, it is exact if and only if the last block is kept or terminated, or nothing like it begins earlier in what is
  left when its turn comes (`HelperJobs.RemovalExactly`).
- A resumed matrix keeps the commit of its first manifest, while the children record the current one. From such a
  stale manifest, which one failed child and a new commit leave behind, every call produces its cells again and
  `complete` is written over artifacts of another commit. Each cell is produced at most once, and complete never written
  over another commit, exactly when the manifest is not stale (`Matrix.StaleArises`, `Matrix.AtMostOnceExactly`,
  `Matrix.CompleteUnmixedExactly`).
- The comment in `rust/src/db/qualification.rs` speaks of sequence gaps for dropped records, but a record dropped on a
  contended lock uses no sequence number. Pairing is therefore proved for arbitrary losses, not for gaps.
- The provider reports the end of a request after it has responded. A request is given its own timing if and only if the
  ring has room at its count and its own end is the last one before its drain (`Provider.OwnTimingExactly`); without ends
  of earlier batches, all requests of a batch are, if and only if every end falls between the count and the drain of its
  own request (`Provider.BatchAttributedExactly`). A late end is given to another request
  (`Provider.LateEndIsMisattributed`), and so can be one of an earlier batch (`Provider.StrayEndIsGiven`).
- The catalog refuses repeated versions by spelling, not by order. Two versions have one key if and only if they have
  one canonical form, and every version that is not written canonically can be listed beside its canonical spelling,
  `1.0.0rc0` beside `1.0.0rc` (`Version.KeyDecidesCanonical`, `TwinCatalog.SpeltTwice`).
- Migrations with digit prefixes are emitted in version order if and only if, for every two prefixes of different
  widths, byte order against the front of the longer one is numeric order: `9` before `10` breaks it, `1` before `20`
  does not (`Migrations.EmittedInVersionOrder`). The build accepts such directories (`Migrations.PairAccepted`).
- A forced `close_for_shutdown` aborts the retirement tasks. One that sleeps in the drain of its generation has set the
  flag and will never record a report, and the shutdown then waits for this report without a deadline. The shutdown can
  return if and only if no generation still to be swept was stranded in this way (`Shutdown.SweepFinishesExactly`,
  `StrandedShutdown.ShutdownHangs`); it takes a finalization job that was registered without a lease
  (`Shutdown.LeasedJobsFinish`).
- However its retirement, its reload and the shutdown interleave, a generation is drained once and its provider clients
  are closed once. At shutdown they can be closed without a failure under a job with a guard if and only if
  a swap can still write the state of the generation when it is marked, or its reload has drained it before
  (`ShutdownUsers.ClosedUnderGuardExactly`).
- `close_for_shutdown` reads the active slot and the retiring slots one after the other, so although it means to adopt
  every generation, it can miss the active one, if and only if a swap can still move the pointer in between
  (`Shutdown.ActiveMissedExactly`, `Shutdown.MissedExactly`).
- The 64-bit byte sum of the write attribution saturates, so the bytes of a delta are those of the writes between its
  snapshots if and only if the sum had room for them, or they were all empty (`Histogram.DeltaDescribesWrites`).

## Model

| member | source | states |
|---|---|---|
| Lifecycle.InUseIsNeverClosed | rust/src/runtime_lifecycle/lease.rs:168-255 | over every interleaving of requests, finalization jobs, reloads, retirements and the close at shutdown, both counters equal their holders, so they never underflow, the jobs of a generation are drained at most once and its provider clients closed at most once; until shutdown marks it no generation is closing or closed while a lease or finalization guard on it lives, and unless a reload discarded it its provider clients are closed without users |
| ResourceClose.ClosedOnce | rust/src/runtime_lifecycle/generation.rs:208-289 | with the flag, the report and three callers in any order, there is at most one drain and one close of the provider clients, and the flag is set without a report or a caller at work exactly if the one that set it was aborted |
| ResourceClose.OneStepOk | rust/src/runtime_lifecycle/generation.rs:208-264 | a step of one caller of `close` keeps flag, report, owner and counts in order beside any others |
| Shutdown.SweepFinishesExactly | rust/src/runtime_lifecycle/manager.rs:316-343 | from every state of the sweep, `close_for_shutdown` can return if and only if no slot still to be swept belongs to a retirement that was aborted asleep in the drain it owned |
| StrandedShutdown.ShutdownHangs | rust/src/runtime_lifecycle/manager.rs:312-314 | a reachable state from which a forced shutdown cannot return any more |
| Shutdown.StrandedExactly | rust/src/runtime_lifecycle/manager.rs:353-366 | a slot is stranded by aborting a taken retirement task asleep in its drain, and by nothing else, and stays so |
| Shutdown.LeasedJobsFinish | rust/src/runtime_lifecycle/manager.rs:312-343 | if every job of a generation whose task was taken was registered under a lease, above all if none was taken, the shutdown can return |
| Shutdown.SettleExactly | rust/src/runtime_lifecycle/manager.rs:324-343 | a swept generation is recorded as closed exactly if its close did not fail and as failed otherwise, and its provider clients are closed either way |
| ShutdownUsers.ClosedUnderGuardExactly | rust/src/runtime_lifecycle/manager.rs:316-343 | from the mark on, a generation can be closed without a failure under a job that holds a guard if and only if a swap can still write its state or its reload had drained it and it has such a job |
| ShutdownUsers.ShutUnderGuardExactly | rust/src/runtime_lifecycle/generation.rs:266-289 | from the mark on, its provider clients can be closed at all under such a job if and only if it is not stranded, and it has one or a swap can still write its state |
| ShutdownUsers.ShutUnderLeaseExactly | rust/src/runtime_lifecycle/generation.rs:266-289 | and under a lease if and only if it is not stranded and still leased, which happens in a forced shutdown only |
| ShutdownUsers.DrainedBefore | rust/src/runtime_lifecycle/generation.rs:208-264 | only a discarded generation is drained before its mark and has a job at work |
| Lifecycle.EveryGenerationSwept | rust/src/runtime_lifecycle/manager.rs:316-343 | over every run, when the sweep is over the provider clients of every adopted generation are closed, exactly once |
| Shutdown.AdoptsAll | rust/src/runtime_lifecycle/manager.rs:280-285 | the sweep adopts the slot that was active when it was read and every slot that is retiring when those are read |
| Shutdown.MissedExactly | rust/src/runtime_lifecycle/manager.rs:280-285 | the open slots it does not adopt are exactly the other ones that are active or in a swap, and the discarded ones |
| Shutdown.ActiveMissedExactly | rust/src/runtime_lifecycle/manager.rs:280-285 | it can miss the active slot if and only if a swap can still move the pointer after the active slot was read |
| Lifecycle.AfterKeepsInv | rust/src/runtime_lifecycle/manager.rs:274-565 | every step of the close at shutdown and of the others keeps the protocol invariant |
| Generations.NextKeepsInv | rust/src/runtime_lifecycle/manager.rs:372-565 | every step of acquire, stage, commit, rollback, accept, shutdown, reaping and retirement keeps exact counters everywhere and the protocol invariant for the slots that shutdown has not closed |
| Generations.SlotStepOk | rust/src/runtime_lifecycle/lease.rs:175-255 | release, registration of a job with the count / look-again handshake of `try_retain_finalization`, guard drops, the steps of a retirement task and the calls of `close` keep a slot's counters, jobs, task, state and resources consistent |
| Generations.SwapStepOk | rust/src/runtime_lifecycle/manager.rs:655-866 | commit, pointer rollback, accept, accept during shutdown, fail closed, rollback and drop keep what held of each slot of a swap |
| Generations.SwapStepManagerOk | rust/src/runtime_lifecycle/manager.rs:655-866 | and keep the manager consistent, whatever the slots hold |
| Generations.StageKeepsInv | rust/src/runtime_lifecycle/manager.rs:402-454 | staging a candidate keeps the invariant, in particular the retirement backlog bound |
| Lifecycle.NoGenerationIsLost | rust/src/runtime_lifecycle/manager.rs:223-239 | over every run at most four slots retire, and of the slots that shutdown has not closed only the active one accepts, each one not closed is active, staged, retiring or a discarded candidate, and a leased one is never discarded |
| Lifecycle.LifecycleMonotone | rust/src/runtime_lifecycle/manager.rs:456-474 | over every run shutdown stays and grants no slot a lease any more, and until shutdown closes it a slot never leaves draining, closing or closed for an earlier state, and closed stays closed |
| Generations.DrainBegins | rust/src/runtime_lifecycle/manager.rs:523-539 | from every reachable state, a retiring slot without leases reaches the finalization drain by two steps of its task |
| Generations.CloseBegins | rust/src/runtime_lifecycle/manager.rs:540-552 | from every reachable state, a draining slot without references begins its close by two steps of its task |
| Generations.CloseFollows | rust/src/runtime_lifecycle/manager.rs:552-565 | from every reachable state, a retirement that is the first to close and finds no jobs closes the provider clients, records it and closes the slot by five steps |
| Generations.StepKeepsClose | rust/src/runtime_lifecycle/generation.rs:208-264 | every step of anyone keeps the close of every slot in order |
| Encoding.HexInjective | scripts/inspect_release_raw.py:112 | different byte strings have different hexadecimal digests |
| Encoding.Base64UrlIsUnpadded | scripts/inspect_release_wheel.py:102-103 | encoding with padding and stripping `=` gives the unpadded encoding of section 5 of RFC 4648, also when nothing is padded |
| Encoding.Base64RoundTrip | scripts/inspect_release_wheel.py:102-103 | decoding the unpadded encoding gives the bytes back, for every byte string |
| Encoding.Base64UrlInjective | scripts/inspect_release_wheel.py:102-104 | different byte strings have different RECORD digests |
| Binaries.RawNamesDiffer | scripts/inspect_release_raw.py:73-80 | raw file names of different targets differ, and none ends like a wheel |
| Binaries.FactsDecide | scripts/inspect_release_raw.py:107-115 | recorded digest and size agree exactly when SHA-256 and length agree |
| WheelName.SplitOfJoin | scripts/inspect_release_wheel.py:134 | splitting joined tags at dots gives the tags back |
| WheelName.JoinOfSplit | scripts/inspect_release_wheel.py:134 | the pieces of a split hold no separator and join to the text |
| WheelName.ParseExact | scripts/inspect_release_wheel.py:28-31 | the file name pattern accepts exactly the rendered names of non-empty parts without dashes and non-empty tags without dots, and reads each in one way |
| Wheel.RecordWitness | scripts/inspect_release_wheel.py:80-106 | in an accepted archive exactly the RECORD has no hash and has an empty row, and every other member has a row with its digest and its length |
| Wheel.WheelWitness | scripts/inspect_release_wheel.py:109-233 | every member of an inspected wheel other than its RECORD is witnessed by a row |
| Wheel.SameRecordSameMembers | scripts/inspect_release_wheel.py:80-106 | archives accepted with the same RECORD bytes have the same member names, and the same SHA-256 and length for every member |
| Wheel.SameRecordSameWheel | scripts/inspect_release_wheel.py:143-233 | the same names, SHA-256 and lengths for any two inspected wheels, of whatever versions and targets |
| Wheel.WheelNameTellsTarget | scripts/inspect_release_wheel.py:130-139 | one file name is a wheel of at most one target class, and it ends in `.whl` |
| Proxies.OnlyFileExtended | scripts/validate_release_artifacts.py:52-56 | looking up the only file of a name does not depend on files of other names |
| Proxies.ValidateProxies | scripts/validate_release_artifacts.py:235-302 | the loop accepts exactly if there are three records, each readable, accepted and of a different target, and it collects exactly their file names |
| Proxies.CheckRecords | scripts/validate_release_artifacts.py:246-301 | the loop with its `seen` and `expected_files` accepts exactly if every record is read and accepted and no target repeats |
| Proxies.EveryTargetSeen | scripts/validate_release_artifacts.py:303-304 | three accepted records of different targets cover the target set, so its completeness check never fires |
| DesktopHelpers.ValidateHelpers | scripts/validate_release_artifacts.py:119-212 | accepts exactly if there is no helper record, or a helper directory is given and the accepted records cover each binary and each script once |
| DesktopHelpers.CheckHelpers | scripts/validate_release_artifacts.py:138-199 | the loop accepts exactly if every record is read and accepted and no target or script repeats |
| Manifest.ConnectRecords | scripts/create_release_manifest.py:194-216 | the appended list is the record of every binary in order followed by those of both scripts, or nothing if one fails |
| Manifest.ValidateManifest | scripts/validate_release_artifacts.py:215-316 | accepts exactly the manifests whose header, proxy records and helper records are accepted and whose trees hold only named files and the manifest |
| Agreement.RecordRoundTrip | scripts/create_release_manifest.py:135-166 | what the validator reads from a produced record is what the producer put there |
| Agreement.ProducedAccepted | scripts/create_release_manifest.py:97-134 | a target the producer accepts is accepted by the validator, whatever files of other names the tree holds |
| Agreement.ProxiesAgree | scripts/create_release_manifest.py:230-233 | the validator accepts the proxy section the producer writes |
| Agreement.HelpersAgree | scripts/create_release_manifest.py:169-216 | the validator accepts the helper section the producer writes |
| Agreement.ProducerValidatorAgree | scripts/validate_release_artifacts.py:119-316 | for every pair of trees from which a manifest is created, the validator accepts that manifest exactly if the trees hold only files it names and files with its own name |
| ArtifactSet.ReleaseInspectorsLawful | scripts/inspect_release_wheel.py:109-245 | the repository's own inspectors meet what the agreement and the exactness theorem rest on |
| ArtifactSet.RecordCorrelates | scripts/validate_release_artifacts.py:258-293 | in an accepted record the wheel's executable and the raw file have the same SHA-256 |
| ArtifactSet.ExactArtifactSet | scripts/validate_release_artifacts.py:239-313 | an accepted proxy release has six files of different names, one wheel and one raw file per target, any other file carries the manifest's name, and each wheel holds its raw executable |
| Version.ParseExact | scripts/check_release_catalog.py:22-24 | the version pattern accepts exactly the rendered versions, and reads each in one way |
| Version.VersionChars | scripts/check_release_catalog.py:22-24 | a version begins with a digit and holds only digits, lower-case letters and inner dots |
| Version.NormalizeIdempotent | scripts/check_release_catalog.py:32-40 | a normalised version is its own normal form |
| Version.SpellingsAccepted | scripts/check_release_catalog.py:32-40 | white space around and a leading `v` or `V` before any version normalise to that version |
| Version.KeyOfNormalForm | scripts/check_release_catalog.py:43-59 | the version key is invariant under normalisation |
| Version.KeyOrder | scripts/check_release_catalog.py:43-59 | version keys are totally ordered |
| Version.KeyDecidesCanonical | scripts/check_release_catalog.py:43-59 | two versions have the same key if and only if they have the same canonical form |
| Version.KeyDecidesSpelling | scripts/check_release_catalog.py:32-59 | the same of any two spellings that normalise |
| Version.CanonKeepsKey | scripts/check_release_catalog.py:43-59 | every version has a canonical form, with its key |
| Version.CanonOfCanonical | scripts/check_release_catalog.py:43-59 | a canonical version is its own canonical form, so different canonical spellings have different keys |
| Version.OtherSpelling | scripts/check_release_catalog.py:43-59 | every other version shares its key with a different spelling |
| Expansion.ReplaceLeavesNone | scripts/check_release_catalog.py:113-121 | a replacement that shares no boundary character with the placeholder leaves and makes no placeholder |
| Expansion.ExpandRelease | scripts/check_release_catalog.py:101-122 | the dictionary filled in place is the merged entry with its three texts filled in, or the first error |
| Expansion.RulesAreLawful | scripts/check_release_catalog.py:32-40 | normalisation and placeholder filling have the laws that idempotence rests on |
| Expansion.LawfulIdempotent | scripts/check_release_catalog.py:101-122 | under those laws expanding an expanded release changes nothing |
| Expansion.ExpansionIdempotent | scripts/check_release_catalog.py:101-122 | whenever expanding a release succeeds, expanding the result again gives the same record |
| Catalog.CheckFiles | scripts/check_release_catalog.py:281-302 | the file loop accepts exactly if every file is named after the version, has a digest, and no name repeats |
| Catalog.CheckEntry | scripts/check_release_catalog.py:235-347 | the checks on one expanded release accept exactly the declared conditions |
| Catalog.CheckReleases | scripts/check_release_catalog.py:223-347 | the release loop accepts exactly if every release expands, is accepted and has a new version, and `seen` is exactly the set of versions |
| Catalog.CheckRollback | scripts/check_release_catalog.py:371-377 | the rollback loop accepts exactly if every listed version normalises to a version of the catalog |
| Catalog.ValidateCatalog | scripts/check_release_catalog.py:125-390 | accepts exactly the catalogs that meet the declared conditions and returns their counts |
| Catalog.CatalogOrder | scripts/check_release_catalog.py:235-264 | in an accepted catalog every Python release is strictly below every Rust release, none is above the native release, and before publication none at the native key is marked published |
| Catalog.CatalogCounts | scripts/check_release_catalog.py:349-377 | the recorded counts are the number of different versions, and the rollback window holds only catalog versions |
| Catalog.CatalogKeys | scripts/check_release_catalog.py:223-264 | in an accepted catalog the version keys are pairwise different if and only if the canonical forms are |
| TwinCatalog.TwinsAccepted | scripts/check_release_catalog.py:125-390 | for any two different spellings of one canonical form a catalog that lists both is accepted |
| TwinCatalog.SpeltTwice | scripts/check_release_catalog.py:125-390 | every version not written canonically is accepted beside its canonical spelling, with the same key |
| TwinCatalog.SameKeyTwice | scripts/check_release_catalog.py:232-234 | `1.0.0rc0` and `1.0.0rc` are accepted in one catalog |
| Transactions.QualificationCollector.constructor | rust/src/db/qualification.rs:158-174 | a new collector is empty |
| Transactions.QualificationCollector.RecordTransaction | rust/src/db/qualification.rs:183-209 | a record is numbered and kept, evicting the oldest, or dropped without a number when the lock is contended |
| Transactions.RecordsAfter | scripts/qualification_sbc.py:2034-2098 | returns a reading exactly if the snapshot is a list of objects whose records above the baseline validate with increasing numbers, and that reading is then exactly those records |
| Transactions.ReadWindow | scripts/qualification_sbc.py:2046-2098 | the loop returns the reading of the window, or there is none |
| Transactions.ReadingFails | scripts/qualification_sbc.py:2052-2096 | once the loop refuses a record no reading of the window exists |
| Pairing.Correlate | scripts/qualification_sbc.py:2119-2193 | succeeds exactly if counts, success flags and listed samples are right, and then pairs each sample with the records of its number |
| Pairing.CollectorRing | rust/src/db/qualification.rs:183-209 | after any events the collector holds the newest 256 surviving records, numbered without gaps |
| Pairing.RecordRoundTrip | scripts/qualification_sbc.py:2058-2096 | a record survives serialisation and validation |
| Pairing.WindowAfterBatch | scripts/qualification_sbc.py:2034-2098 | reading above the baseline gives back exactly the newest 256 surviving records of the batch |
| Pairing.SurvivorsForeground | scripts/qualification_sbc.py:2126-2134 | dropping loses foreground records exactly if one of them met a contended lock; otherwise the lists agree |
| Pairing.FullCountIsWholeBatch | scripts/qualification_sbc.py:2126-2148 | a window with two foreground records per request holds exactly the batch's own records, in order |
| Pairing.PairingFailsClosed | scripts/qualification_sbc.py:2119-2193 | whatever came before, ran beside, was dropped or was evicted: an accepted window pairs every listed request with the two records it wrote itself |
| Pairing.FullCountExactly | scripts/qualification_sbc.py:2126-2134 | the count is full exactly if no foreground record was dropped and at most 256 records survived from the first publication on |
| Pairing.AcceptedExactly | scripts/qualification_sbc.py:2126-2148 | a window is accepted exactly if nothing was lost and every transaction succeeded |
| Histogram.ReadIsValid | scripts/qualification_sbc.py:1762-1808 | a snapshot that reads has histograms that sum to their counts |
| Histogram.DeltaBucketSucceeds | scripts/qualification_sbc.py:1811-1852 | between valid buckets a delta succeeds exactly if no counter decreased |
| Histogram.DeltaBucketsCompose | scripts/qualification_sbc.py:1811-1852 | two successive deltas of a bucket compose to the delta across both, with the larger size bound |
| Histogram.DeltasCompose | scripts/qualification_sbc.py:1811-1852 | for validated snapshots, successive deltas compose to the delta across both, for every transaction kind |
| Histogram.DeltaMismatchNeverFires | scripts/qualification_sbc.py:1811-1852 | on validated snapshots the histogram/count mismatch of a delta never occurs |
| Histogram.CollectedExact | rust/src/db/qualification.rs:220-238 | unless the count saturates, the collector's count, histogram and maximum are those of the recorded writes, and its sum is if and only if it fits 64 bits |
| Histogram.CollectedBytes | rust/src/db/qualification.rs:228-229 | for any writes the sum is their total up to the 64-bit limit, and the maximum is theirs |
| Histogram.DeltaDescribesWrites | rust/src/db/qualification.rs:220-238 | the delta of two snapshots counts exactly the writes between them, its size bound is the least bucket bound that holds for all of them, and its bytes are theirs if and only if the whole total fits 64 bits or they were all empty |
| Provider.LoopbackProvider.constructor | scripts/qualification_sbc.py:759-777 | a new provider has counted nothing |
| Provider.LoopbackProvider.RecordRequest | scripts/qualification_sbc.py:779-789 | a request is counted in all and for the first suffix of its path, and gets the delay of its place in the profile |
| Provider.LoopbackProvider.StartDiagnostic | scripts/qualification_sbc.py:799-810 | numbering and ring start afresh with a capacity within 1 and 200 |
| Provider.LoopbackProvider.StopDiagnostic | scripts/qualification_sbc.py:812-814 | recording stops and the ring stays |
| Provider.LoopbackProvider.DiagnosticBegin | scripts/qualification_sbc.py:816-822 | hands out the next number while enabled, else nothing |
| Provider.LoopbackProvider.DiagnosticEnd | scripts/qualification_sbc.py:824-832 | keeps the timing while enabled, evicting the oldest beyond capacity |
| Provider.RingRefinesLog | scripts/qualification_sbc.py:799-832 | after any operations the ring is the newest entries, up to capacity, of the ends accepted since the last start |
| Provider.IssuedConsecutive | scripts/qualification_sbc.py:816-822 | the numbers issued since a start are 1, 2, 3 and so on |
| Provider.DrainExact | scripts/qualification_sbc.py:2332-2335 | slicing from an earlier count gives exactly the ends since then if and only if there were none or all ends fit the capacity |
| Provider.ChosenExactly | scripts/qualification_sbc.py:2364-2365 | after any operations the timing chosen for a request is the last end accepted between its count and its drain, unless the ring was full at the count or there was none |
| Provider.OwnTimingExactly | scripts/qualification_sbc.py:2446-2447 | whatever ends arrive, a request of a batch is given the timing with its own number if and only if the ring has room at its count and the last end between its count and its drain has this number |
| Provider.BatchAttributedExactly | scripts/qualification_sbc.py:2433-2447 | if no end of an earlier batch arrives, every request of a batch is given the timing with its own number if and only if every end falls between the count and the drain of its own request |
| Provider.RequestNumbers | scripts/qualification_sbc.py:816-822 | the requests of a batch are numbered in order, and every end before a request was accepted |
| Provider.RingFits | scripts/qualification_sbc.py:799-832 | if every end carries a number handed out before it and none twice, there are never more ends than numbers |
| Provider.LateEndIsMisattributed | scripts/qualification_sbc.py:2364-2365 | a batch in which the second request is given the timing of the first, whose end came late |
| Provider.StrayEndIsGiven | scripts/qualification_sbc.py:2364-2365 | an end of an earlier batch that arrives last is given to a request whose own end is in time |
| Provider.PathCountsExact | scripts/qualification_sbc.py:779-797 | the per-path counts are the numbers of requests whose path ends so |
| Percentile.SortPermutes | scripts/qualification_sbc.py:1456-1462 | sorting keeps every sample value as often as it occurs |
| Percentile.PercentileExact | scripts/qualification_sbc.py:1456-1462 | the result is the least sample value with at least that percentage of the sample at or below it |
| Percentile.PercentileUnique | scripts/qualification_sbc.py:1456-1462 | no other value has that property |
| Percentile.PercentileClamped | scripts/qualification_sbc.py:1456-1462 | below 1 percent the result is the minimum and from 100 percent on the maximum |
| Percentile.PercentileIgnoresOrder | scripts/qualification_sbc.py:1456-1462 | the result does not depend on the order of the sample |
| Percentile.PercentileMonotone | scripts/qualification_sbc.py:1456-1462 | a higher percentage gives no smaller value |
| Percentile.SummaryOrdered | scripts/qualification_sbc.py:1465-1487 | p50 is at most p95, p95 at most p99, and p99 is a sample value |
| Phases.RoundQuotient | scripts/qualification_sbc.py:1591-1594 | rounding to milliseconds is off by at most half a millisecond, and ties go to the even one |
| Phases.RoundQuotientUnique | scripts/qualification_sbc.py:1591-1594 | no other integer is such a rounding |
| Phases.PhasesExact | scripts/qualification_sbc.py:2283-2296 | for any timestamps the phases, less what clamping at zero added to them, are within 2 ms of the rounded total |
| Phases.PhasesCoverTotal | scripts/qualification_sbc.py:2283-2296 | for any timestamps the phases sum to at least the total minus 2 ms, and for ordered ones to at most the total plus 2 ms |
| Phases.BoundsAreTight | scripts/qualification_sbc.py:2283-2296 | both bounds are reached |
| Phases.UnorderedExcess | scripts/qualification_sbc.py:2283-2296 | for unordered timestamps the sum exceeds the total by any amount, so by any number of milliseconds |
| Throttle.WriteCompetingIo | scripts/qualification_sbc.py:2655-2681 | for every allowed rate, volume, stop time and disk failure the loop ends; at every moment the volume cap, the rate plus one chunk and the 1 MiB unsynced bound hold; on normal exit everything is synced and either the writer was stopped or the volume was reached in no less than its time |
| Matrix.ListConditions | scripts/qualification_ordinary_server.py:70-76 | the conditions are exactly the wanted pairs, each once, in order |
| Matrix.ArtifactNameInjective | scripts/qualification_ordinary_server.py:147-154 | different conditions or runs have different artifact names |
| Matrix.CellNameInjective | scripts/qualification_ordinary_server.py:147-154 | different cells of the matrix have different artifact names |
| Matrix.Runner.RunCell | scripts/qualification_ordinary_server.py:531-593 | one cell is reused, produced, or stops the call with the manifest incomplete, as the step of the state machine says |
| Matrix.Runner.NextCell | scripts/qualification_ordinary_server.py:531-593 | an iteration of the inner loop is the next child step of the call |
| Matrix.Runner.RunCondition | scripts/qualification_ordinary_server.py:530-593 | the inner loop goes through the three runs of a condition or stops |
| Matrix.Runner.Run | scripts/qualification_ordinary_server.py:498-626 | a call is a run of the state machine; it returns 0 exactly when it leaves the manifest complete, and 77 when blocked |
| Matrix.ProducedAtMostOnce | scripts/qualification_ordinary_server.py:498-626 | from a manifest that is not stale, over any calls of one identity and any child failures, no cell is produced twice |
| Matrix.PassingCallProduces | scripts/qualification_ordinary_server.py:530-626 | a call in which every started child passes produces exactly the cells that were not reusable and completes |
| Matrix.StaleArises | scripts/qualification_ordinary_server.py:505-593 | from an empty directory, a call whose first child fails leaves a manifest that is stale at every other commit |
| Matrix.StaleManifestRepeats | scripts/qualification_ordinary_server.py:505-529 | from a stale manifest the same call produces a cell again, and completes over an artifact of another commit |
| Matrix.AtMostOnceExactly | scripts/qualification_ordinary_server.py:498-626 | no cell is produced twice over any calls of one identity if and only if the manifest is not stale |
| Matrix.CompleteUnmixedExactly | scripts/qualification_ordinary_server.py:498-626 | unless it is so at the start, complete is not written over a cell that is not reusable under the manifest, over any calls of one identity, if and only if the manifest is not stale |
| Matrix.CompleteIsEarned | scripts/qualification_ordinary_server.py:594-626 | whenever a manifest says complete every cell has a passing artifact of its binary, and only a lifecycle child that succeeded wrote it, in a call that found each cell reusable under the manifest or produced it at its own commit |
| Workflow.JoinOfSplit | scripts/validate_release_workflow.py:79 | splitting into lines loses nothing |
| Workflow.SplitAtBreak | scripts/validate_release_workflow.py:79 | splitting a text at a line break splits its lines there |
| Workflow.JobBlocks | scripts/validate_release_workflow.py:78-100 | succeeds exactly if there is a `jobs:` line with a header after it, and then holds the last block of every job name in order of first appearance |
| Workflow.CollectBlocks | scripts/validate_release_workflow.py:96-100 | the loop builds that dictionary |
| Workflow.PiecesAreText | scripts/validate_release_workflow.py:78-100 | the preamble and one block per header are exactly the text |
| Workflow.PartitionExactly | scripts/validate_release_workflow.py:78-100 | the preamble and the dictionary's blocks are the text if and only if no job name repeats |
| HelperJobs.WithoutHelperBlocks | scripts/validate_release_workflow.py:103-115 | each helper block in turn loses its first occurrence |
| HelperJobs.NoStraddle | scripts/validate_release_workflow.py:112-115 | a job block does not begin inside one piece of a workflow and end in the next |
| HelperJobs.RemovesTheBlock | scripts/validate_release_workflow.py:112-115 | removing the first occurrence of a terminated block that occurs in no earlier piece removes the block |
| HelperJobs.WorkflowCut | scripts/validate_release_workflow.py:78-100 | a workflow is a terminated preamble and blocks of one header each |
| HelperJobs.RemovalExactly | scripts/validate_release_workflow.py:111-115 | if each removed text occurs once, removing any distinct jobs leaves exactly the preamble and the other blocks in order if and only if the last block is kept or terminated, or nothing like it begins earlier in what is left before it at its turn |
| HelperJobs.HelpersRemovedExactly | scripts/validate_release_workflow.py:103-115 | the same if and only if, for the helper jobs of the release workflow |
| UnterminatedHelper.RemovalNotExact | scripts/validate_release_workflow.py:111-115 | without termination it fails although the names differ and each removed text occurs once |
| UnterminatedHelper.UnterminatedHelperEscapes | scripts/validate_release_workflow.py:42-63 | the failing family contains the helper jobs of the release workflow |
| Redaction.WordsKeepText | scripts/qualification_portability.py:113 | `split` keeps every visible character in order |
| Redaction.SplitOfJoin | scripts/qualification_portability.py:113 | splitting joined words gives the words back |
| Redaction.NormalizeKeepsWords | scripts/qualification_portability.py:113 | normalisation keeps the words and every visible character |
| Redaction.CutEachIsOneCut | scripts/qualification_portability.py:114-117 | for independent markers, cutting at each in turn is one cut at the earliest occurrence of any |
| Redaction.OrderIrrelevant | scripts/qualification_portability.py:114-117 | the order of independent markers does not matter |
| Redaction.NoMarkerSurvives | scripts/qualification_portability.py:114-118 | no independent marker occurs in the truncated result |
| Redaction.MarkersIndependent | scripts/qualification_portability.py:114 | the five markers are independent of each other and of the replacement |
| Redaction.BoundedText | scripts/qualification_portability.py:112-118 | for every input the loop gives the normalised text cut once at the earliest marker and bounded, and no marker is left |
| Publish.RunKeepsInv | scripts/refresh_opencode_go_catalog_snapshot.py:172-196 | every interleaving of writers and readers, with failures and power loss, keeps each file either the old document or one writer's work |
| Publish.AlwaysOneDocument | scripts/refresh_opencode_go_catalog_snapshot.py:172-196 | the published file is always its initial content or one writer's complete document |
| Publish.PublishedNeverChanges | scripts/refresh_opencode_go_catalog_snapshot.py:172-196 | a file once published is never written to again |
| Publish.ReadersSeeOneDocument | scripts/refresh_opencode_go_catalog_snapshot.py:172-196 | a reader that opened the file reads one document whatever happens meanwhile |
| Migrations.ReadFiles | rust/build_support.rs:67-92 | accepts exactly the non-empty lists of distinct SQL names with valid checksums, and the map holds exactly them |
| Migrations.ParseChecksums | rust/build_support.rs:24-45 | accepts exactly one `files` field and nothing else |
| Migrations.SortNames | rust/build.rs:30-35 | the names come in byte order, each once |
| Migrations.Inventory | rust/build.rs:27-59 | accepts exactly if the SQL names are the checksum keys, every name has a version and no version repeats, and lists them in byte order |
| Migrations.SameWidthOrder | rust/build.rs:35 | for prefixes of one width byte order is numeric order |
| Migrations.EmittedByPrefixes | rust/build.rs:35-51 | any emitted list is strictly increasing in version if and only if the prefixes, each closed by its underscore, are ordered as their versions |
| Migrations.EmittedInVersionOrder | rust/build.rs:35-51 | with digit prefixes it is if and only if, for every two prefixes of different widths, byte order against the front of the longer one is numeric order |
| Migrations.PairAccepted | rust/build.rs:27-59 | any two digit prefixes of different values make an accepted directory |
| Migrations.MixedWidthsMisorder | rust/build.rs:35-51 | an accepted directory whose version 10 comes before its version 9 |

## Left out

- HelperJobs.RemovalExactly: is about removed texts that occur once; a text that occurs twice can still be removed exactly when its copies are adjacent or later, which is not separated.
- Lifecycle.InUseIsNeverClosed: assumes sequentially consistent steps, so the weaker Acquire and Release orders of the atomics are not modelled; guards are taken by the registration of finalization jobs only, as in the server.
- Lifecycle.LifecycleMonotone: leaves out the generations marked by `close_for_shutdown`, which moves a failed one back to closing.
- Shutdown.SweepFinishesExactly: is about one call of `close_for_shutdown`; its deadlines are free choices, the retirement tasks it takes may be any that run, and that a scheduler gets to the end is not stated.
- Generations.SwapStepOk: `fail_closed` itself does not look at the phase; the step is modelled for its only caller (rust/src/reload.rs:810), after the pointer was committed.
- Provider.BatchAttributedExactly: assumes that no end of an earlier batch of the same provider arrives after the start; `Provider.OwnTimingExactly` does not. Every request reaches the provider between its count and its drain; requests that time out on the way or are repeated are not modelled.
- Matrix.Runner.Run: ends with the manifest; the summary written after it, which can still raise, is left out.
- Generations.CloseFollows: shows that closing is possible, not that a scheduler gets there; timeouts may fail a retirement at any time.
- Catalog.ValidateCatalog: the walk for secrets, the target matrix and the fixed authority strings are not modelled; counts that are floating point numbers equal to an integer count as different.
- Phases.RoundQuotient: divides exactly, where Python divides floating point numbers; for durations of more than 2^53 ns the two can differ.
- Throttle.WriteCompetingIo: times are real numbers, so clock resolution and rounding of the target time are not modelled.
- Manifest.ValidateManifest: `rglob` with a manifest file name matches the name literally, so names with glob characters are not modelled; portability evidence from `readelf` and `otool` is left out.
- Version.ParseExact: `\d` stands for the ASCII digits.
- SHA-256, ZIP, CSV, UTF-8 and mail header reading are parameters of the inspectors.
- Lower-casing in wheel metadata is ASCII only.
- The pass of `without_helper_blocks` over `needs` lines, and the needle lists of the workflow and documentation validators: each is settled by one branch.
- Candidate ownership, task diffs and database compensation of a configuration reload: orchestration around the generation swap.
- The `summarize` gates of the matrix, phase and checkpoint summaries of the diagnostics: flat conjunctions and sums.
- Child processes, sockets, HTTP, signals, package managers and the build drivers.
