# Kubo: verified models of its core algorithms

Dafny models of the parts of Kubo whose correctness does not follow from reading one
function: garbage collection and the lock protocol around it, the bounded `refs` traversal,
custom router construction, byte-range reading, the `repo verify` worker pool, the p2p stream
registry and the concealing of configuration values. `dafny verify dfyconfig.toml` checks all
of it.

How things are represented:

- A CID is a version, a codec and a multihash (`Dag.Cid`); blocks are stored and deleted by
  multihash, and what a multihash decodes to never changes (`Dag.World`). Reachability is
  defined by explicit link paths. Getting the links of a raw CID reads no block, so a missing
  raw leaf does not stop a collection.
- `GcMark.Collector` and the methods of `GcSweep` are the collector's code. Between any two of
  its actions `Interfere` may store blocks that need no lock and may cancel the context; a pin
  stream or a walk may end early only once the context is cancelled.
- `GcProtocol`, `AddLock`, `VerifyPool`, `Streams` and `NoFlush` are step systems: a run is any
  sequence of enabled steps of any number of threads, and the theorems hold for every run. The
  `GcMarked` step of `GcProtocol` is guarded by exactly what `ColoredSet` guarantees of the
  mark. `CollectIsARun` shows that the collector's code refines the step system: same stores at
  both ends and same deletions in the same order, with arrivals moved to before the end of the
  mark or after the last deletion. `GcSchedule` shows that the guarantee is exact: the marks it
  allows are those that some order of fetches and arrivals brings about.
- `RefWriter`, `Builder`, `ApiFile`, `StreamRegistry`, `Remover` and `Adder` are classes with
  the fields the Go code updates. I/O that may fail is given by inputs that say what fails
  (`undeletable`, `emits`, `answered`, `readable`, `putOk` and the like), so contracts say
  exactly when a call succeeds.
- Integers are unbounded except where the source's width shows: `cat` and the file cursor
  write out uint64 and int64 arithmetic, and stream ids wrap at 2^64.

Where the code and its comments differ, the code is followed: `matchesGlobPrefix` splits its
key at dots, not commas; `scrubValue` is documented to fail when the key is missing and never
does, because the value it tests is a nil map inside a non-nil interface.

Properties that do not hold of every input come with an exact condition:

- Blocks may be stored without the pin lock while a collection runs, and then the blocks
  reachable from the MFS roots at that moment are not all safe: a child stored all along can be
  swept if its parent arrives after it was walked (`LateParentLosesChild`). What a collection may
  delete is decided by the roots and by the blocks that its walk from MFS roots is certain to
  find: those present when the mark begins, and those that recursive pins reach by CIDs that are
  not raw, which are fetched first (`MayDeleteIffExposed`). For a block away from internal pins it is whatever the roots do
  not protect through those blocks, if the mark can be finished at all
  (`MayDeleteIffUnprotected`, and `UnprotectedIsScheduled` for any roots in any order); without
  internal pins, the mark of an undisturbed collection
  covers exactly what is protected (`UndisturbedMarkIsProtection`). What was linked and stored
  before the mark began always survives (`LinkedPathSurvives`), whatever arrives.
- A mark that nothing disturbs can be finished exactly if everything it walks can be fetched,
  raw CIDs always can (`MarkFinishesIff`).
- `repo verify` may remove a block that is fine exactly if removal is asked for, and does so only
  in a cancelled request, whose reads may fail (`GoodBlockMayGoIff`,
  `GoodBlockGoesOnlyCancelled`).
- `block rm` spares a pinned block exactly if no requested unpinned CID shares its multihash
  (`PinnedBlockSparedIff`).
- The limit on unflushed operations is kept exactly for a single caller (`KeptIffSingle`).
- The query for an HTTP provider has no loop detection. It returns exactly if no loop can be met
  along children whose elder siblings have no HTTP router below them
  (`ReturnsIffNoLoopConsulted`).
- Scrubbing and the matcher on dotted paths agree exactly on paths whose segments have no dots
  (`ScrubAgreesIffUndotted`).
- A stream id is new exactly while fewer than 2^64 streams were registered
  (`FreshIffNotWrapped`).

## Model

| member | source | states |
|---|---|---|
| Dag.ToCidV1 | gc/gc.go:230-235 | a CID in version 1 with the same codec (dag-pb for CIDv0) and multihash |
| Dag.CidV0IsDagPb | gc/gc.go:230-235 | a CIDv0 becomes the CIDv1 of codec 0x70 with its multihash, a CIDv1 stays as it is |
| Dag.DagPbChildren | gc/gc.go:244-255 | a CIDv0 and the dag-pb CIDv1 of a stored block see exactly the normalised links of its dag-pb decoding |
| Dag.FetchCases | gc/gc.go:244-278 | getting links answers the decoding by the codec of the CID, not found iff the block is missing, and nothing at all for a raw CID |
| GcMark.Collector.Interfere | gc/gc.go:55-59 | while the GC lock is held, blocks may arrive and the context may be cancelled, never un-cancelled |
| GcMark.Collector.Emit | gc/gc.go:248-252 | a result is dropped only when the context is done |
| GcMark.Collector.Visit | gc/gc.go:218-220 | the normalised CID is added and reported new iff it was not there |
| GcMark.Collector.GetLinks | gc/gc.go:244-278 | a failure to fetch is remembered and reported exactly where strictness demands it; a missing block is fine for best effort, and for a raw CID always; an insecure hash is an error |
| GcMark.Collector.Walk | gc/gc.go:217-224 | in any order of visits and fetches: only reachable nodes are added, and an uncancelled clean walk leaves a closed set holding the root |
| GcMark.Collector.Descendants | gc/gc.go:184-227 | the same over a whole pin stream; a nil error without completeness implies cancellation; an error without cancellation implies a failed stream or an unfetchable node |
| GcMark.KeysMember | gc/gc.go:209-220 | the roots of a pin stream are exactly the normalised keys of its items |
| GcMark.Collector.DirectKeys | gc/gc.go:300-306 | exactly the direct pins are added; only a stream failure aborts |
| GcMark.Collector.MarkPhase | gc/gc.go:256-265 | an uncancelled phase either finished or has recorded trouble |
| GcMark.Collector.ColoredSet | gc/gc.go:239-324 | uncancelled success means the marked set is a mark of the roots in which blocks present at the start, or reached by recursive pins other than by raw CIDs, are expanded, every node to be fetched was, all streams were read to the end and nothing was reported; uncancelled failure means real trouble, reported on the way, and the error for a failed direct stream or for links that could not be fetched |
| GcMark.PhasesMakeMark | gc/gc.go:256-323 | four phases over one visited set mark everything recursive pins reach, everything MFS roots reach through present blocks and nothing they cannot come upon, the direct pins, and what internal pins reach around those |
| GcMark.InternalReachIsMarked | gc/gc.go:308-317 | what an internal pin reaches is marked unless every way to it passes a direct pin or a node that MFS leads to whose block was missing and fetched for no recursive pin |
| GcMark.CidV0PinMarksChildren | gc/gc.go:217-220 | the root and every child of a file pinned by its CIDv0 are marked |
| GcMark.MarkIsUnique | gc/gc.go:239-324 | unless blocks arrive that were fetched for no recursive pin, the mark depends on the store and the sets of roots only, not on walk order or the order of roots |
| GcMark.BestEffortPhase | gc/gc.go:267-298 | a best-effort phase over a strict one marks what MFS roots reach through present blocks, stops at what is marked already without missing anything, and comes upon nodes only through expanded ones |
| GcSweep.ToRawCids | gc/gc.go:36-43 | the raw set has the key of a block iff some marked CID has its multihash |
| GcSweep.HashesMember | gc/gc.go:36-43 | the multihashes of a set of CIDs are exactly those of its members |
| GcSweep.SweepKey | gc/gc.go:130-150 | a key is kept iff its multihash is marked, else one deletion is tried and reported |
| GcSweep.Sweep | gc/gc.go:123-154 | a sweep entered after cancellation deletes nothing; otherwise only unmarked keys are tried, all of them unless cancelled, and the output is the attempts in order |
| GcSweep.UnmarkedIsUnprotected | gc/gc.go:130-134 | a block no marked CID shares a multihash with is kept by no root |
| GcSweep.MarkAndSweep | gc/gc.go:92-175 | no deletion without a complete mark, whenever cancellation strikes |
| GcSweep.Collect | gc/gc.go:60-179 | nothing protected by the roots at the time of deletion is deleted, nothing at all if a stream or strict fetch failed, a raw CID never being fetched; every deletion goes through unless the block cannot be deleted; an uncancelled sweep is exact, and its output is the attempts followed by the some-blocks error iff one failed; undisturbed, exactly the blocks sharing a multihash with a marked CID and those that cannot be deleted are left; a collection that gives up says why |
| GcProtocol.CollectIsARun | gc/gc.go:60-179 | the collector's code, cancelled or not, takes the store from where the lock was granted to where it ends by a run of the step system whose sweep steps are its successful deletions in order |
| GcProtocol.StepKeepsInv | gc/gc.go:63-90 | every step of collector or writers keeps lock exclusion, the roots snapshotted under the lock current, and the mark valid for the roots of the moment |
| GcProtocol.StepFrame | core/commands/files.go:83-91 | only a pin-lock holder changes roots, and to what it says; blocks come by holders or by themselves and go by the sweep; a waiting collector bars new holders |
| GcProtocol.DeletesNothingProtected | gc/gc.go:123-154 | only the sweep removes blocks, with no pin-lock holder, and never one the current roots protect through blocks present when the mark began or fetched for recursive pins |
| GcProtocol.PinnedBlockSurvives | gc/gc.go:45-53 | in every interleaving a block below a recursive pin stays while the pin does |
| GcProtocol.DirectlyPinnedBlockSurvives | gc/gc.go:300-306 | in every interleaving a directly pinned block stays while the pin does |
| GcProtocol.LockedWritersStayQuiet | core/commands/files.go:83-91 | writers under the pin lock store nothing behind the collector's lock |
| GcProtocol.LockedWritersLoseNothing | gc/gc.go:55-59 | if nothing is stored behind the collector's back while it marks and sweeps, whatever the roots protect through the blocks of the moment stays |
| GcProtocol.LinkedPathSurvives | core/commands/files.go:83-91 | in every interleaving, with any arrivals, a link path from an MFS root stored before a mark begins stays stored while the root is linked |
| GcProtocol.NothingDeletedUnderPinLock | core/commands/files.go:83-91 | while anyone holds the pin lock the store only grows |
| GcProtocol.WrittenThenPinnedSurvives | core/coreapi/dag.go:24-38 | a block stored and then pinned before unlocking survives every later collection until unpinned |
| GcProtocol.WrittenThenLinkedSurvives | core/commands/files.go:83-91 | blocks stored and then linked into MFS before unlocking survive every later collection until unlinked, with any arrivals |
| GcSchedule.EveryMarkIsScheduled | gc/gc.go:267-298 | every mark that `ColoredSet` allows for recursive pins and MFS roots is brought about by some order of fetches, walking the roots one after the other, and of arrivals by multihash, if CIDs sharing a multihash are expanded alike or there is a single root over an acyclic link graph |
| GcSchedule.ScheduledIsMark | gc/gc.go:267-298 | every such order brings about a mark that it allows |
| GcSchedule.MarkIffScheduled | gc/gc.go:267-298 | so the allowed marks are exactly the possible ones |
| GcSchedule.UnaliasedIsFeasible | core/corerepo/gc.go:79-98 | the condition holds for any roots in any order if no two CIDs the walks come upon share a multihash, raw ones aside |
| GcSchedule.UndisturbedIsFeasible | core/corerepo/gc.go:79-98 | and for any at all if nothing arrives but what recursive pins need |
| GcLoss.ExposedGoesUnmarked | gc/gc.go:239-324 | if nothing certain keeps a block or fails the mark, some finished mark is without it |
| GcLoss.ExposedIsScheduled | gc/gc.go:267-298 | with an order of fetches and arrivals that leaves the block out of the walk from MFS roots |
| GcLoss.UnmarkedIsExposed | gc/gc.go:239-324 | and no finished mark is without a block for any other reason |
| GcLoss.MayDeleteIffExposed | gc/gc.go:60-154 | a collection that has its lock and not yet its mark can go on to delete a block iff neither recursive pins, nor MFS roots through the blocks certain to be found, nor direct pins, nor internal pins around all that can shadow them keep it, and nothing certain to be walked fails |
| GcLoss.MayDeleteIffUnprotected | gc/gc.go:60-154 | for a block that no internal pin reaches, internal pins being fetchable: iff all that recursive pins reach and all that MFS roots are certain to reach can be fetched and the roots do not protect the block through blocks certain to be found |
| GcLoss.UnprotectedIsScheduled | gc/gc.go:267-298 | for such a block, whatever roots are walked in whatever order, an order of fetches with no arrivals but for recursive pins leaves it out |
| GcLoss.MarkFinishesIff | gc/gc.go:239-324 | if nothing arrives, some mark is finished iff everything recursive pins, MFS roots and internal pins lead to can be fetched |
| GcLoss.RawFileMark | test/sharness/t0087-repo-robust-gc.sh:18-45 | a pinned file with raw leaves is marked whichever of its leaves are stored |
| GcLoss.MissingRawLeafIsNoObstacle | test/sharness/t0087-repo-robust-gc.sh:18-45 | a collection with raw leaves of a pinned file missing goes on and may sweep any block that is no part of it |
| GcLoss.UndisturbedMarkIsProtection | gc/gc.go:239-324 | without internal pins, if nothing arrives but what recursive pins need, the mark covers exactly the protected blocks |
| GcLoss.LonelyRootMark | gc/gc.go:267-278 | an MFS root whose block is missing is marked alone, and shadows an internal pin on itself |
| GcLoss.LateParentLosesChild | gc/gc.go:267-278 | a run that sweeps a block stored all along and reachable from MFS when it goes, because its parent arrived after it was walked |
| PinningAdder.Adder.AddMany | core/coreapi/dag.go:40-61 | every write and pin falls between lock and unlock, writes before pins, each CID is pinned once; it succeeds iff every write, every pin and the flush do, and then exactly the given nodes are stored and pinned |
| PinningAdder.AddedSurvives | core/coreapi/dag.go:40-61 | in every run of the collection protocol in which those events take place, what was stored and pinned survives until unpinned |
| Refs.RefWriter.Visit | core/commands/refs.go:280-326 | pruning by depth and by recorded depth, and listing of first sightings only |
| Refs.RefWriter.Meet | core/commands/refs.go:223-252 | a link is pruned or fetched and listed once, as the edge from its node to it; what it records is a real distance |
| Refs.RefWriter.WriteLink | core/commands/refs.go:241-265 | a link and all below it: recorded depths only shrink and every changed entry ends up explored from its depth |
| Refs.RefWriter.WriteRefsRecursive | core/commands/refs.go:218-269 | the count is the number of edges listed; unique: all links recorded within one further, news explored; not unique: the edges listed are, in order, the last links of the paths within the limit, depth first |
| Refs.RefWriter.WriteRefs | core/commands/refs.go:210-216 | the same from a root, at distance zero |
| Refs.RefWriter.WriteAll | core/commands/refs.go:123-129 | every edge listed is a link, even with failures; unique: no CID is listed twice even with failures; without failures the listed CIDs are exactly those at distance 1 to the limit from some root, under a limit recorded at the shortest distance; not unique: for each root in turn one edge for each path within the limit, depth first; it succeeds if all is available and emitting does not fail |
| Refs.SettledIsListed | core/commands/refs.go:271-326 | when every recorded node is explored from its recorded depth, the record is the set of nodes within the limit, and under a limit the shortest-distance map |
| Refs.NewsCompose | core/commands/refs.go:304-325 | exploring again at a smaller depth composes: what is new or lower is explored |
| Refs.PathsAreAllPaths | core/commands/refs.go:292-297 | the paths listed are exactly the nonempty link paths of length at most the limit, all if negative |
| Refs.PathsAreOrdered | core/commands/refs.go:218-269 | a path comes before those it is part of, and elder links before younger |
| Refs.PathsAreDistinct | core/commands/refs.go:218-269 | no path is there twice, so the count is the number of distinct paths |
| Routing.Check | config/routing.go:71-92 | accepted iff the method names are exactly the five supported ones |
| Routing.ConstructibleKinds | routing/delegated.go:203-330 | an HTTP router needs an endpoint for which a client can be made, a DHT router parameters of its kind and a known mode unless accelerated |
| Routing.BuildableFromChildren | routing/delegated.go:125-165 | a constructible router over buildable children is buildable, in particular on no loop |
| Routing.Builder.Parse | routing/delegated.go:92-176 | succeeds iff all that is reachable is defined, known, constructible and loop-free; shared children never count as loops; each name is built once |
| Routing.Builder.Construct | routing/delegated.go:118-169 | the router built is the one the configuration describes, children in order with their options |
| Routing.Builder.ParseChildren | routing/delegated.go:126-142 | all children are built, or the parent is not buildable |
| Routing.Parse | routing/delegated.go:58-90 | succeeds iff the methods are the five and every method's router is buildable; the provide, find-peers, find-providers, get-ipns and put-ipns fields then hold the routers described for these methods, whatever the iteration order |
| Routing.ComposerIsDetermined | routing/delegated.go:66-87 | all five fields are set and the result is the same for every iteration order |
| Routing.DenotesOne | routing/delegated.go:144-162 | a configuration describes at most one router |
| Routing.AnswerIsRight | config/routing.go:244-265 | if the query returns, it says whether an HTTP router is reachable |
| Routing.ReturnsIffNoLoopConsulted | config/routing.go:252-262 | the query returns iff no loop can be met along children whose elder siblings have no HTTP router below them |
| Routing.ConsultedShrinks | config/routing.go:254-262 | without such a loop there is strictly less to consult at every recursive call |
| Routing.AcceptedReturns | config/routing.go:244-265 | the query returns on every router that the construction accepts |
| Routing.HasHttpProvider | config/routing.go:229-240 | if it returns, true iff the provide method exists and reaches an HTTP router |
| Routing.ProviderAnswerExists | config/routing.go:229-240 | it returns iff there is no provide method or its router's query meets no loop |
| Routing.SelfFirstNeverReturns | config/routing.go:254-262 | a configuration on which the query never returns |
| Routing.SelfSecondReturns | config/routing.go:254-262 | with the children swapped it does, though the router is on a loop |
| Cat.Cat | core/commands/cat.go:123-189 | the readers yield exactly the concatenation from the offset on, cut to the limit; the length is its size modulo 2^64 and exact under a limit; it fails iff an entry that is looked at cannot be read, with the first such error |
| Cat.AddFile | core/commands/cat.go:160-186 | a positioned file extends the output by its rest, or fills the limit exactly |
| Cat.LimitedNeverWraps | core/commands/cat.go:175-182 | below a positive limit no 64-bit operation wraps, for sizes up to 2^63-1 |
| Cat.LastReaderFits | core/commands/cat.go:177-184 | the reader that meets the limit is cut to meet it exactly |
| Cat.FilledLimit | core/commands/cat.go:177-185 | entries after a filled limit are not looked at and change nothing |
| Cat.Run | core/commands/cat.go:45-76 | negative options are refused, a missing length means no limit; the bytes and the length set for them are those of `cat`; an error is that of an entry or of a file that cannot be positioned |
| Cat.RangeByByte | core/commands/cat.go:123-189 | the range is, byte by byte, the data from the offset on, as long as the limit and the data allow |
| Cat.YieldByByte | core/commands/cat.go:167-184 | a positioned reader yields, byte by byte, the data from there on, no more than its limit |
| Cat.ConcatJoins | core/commands/cat.go:131-187 | files come in the order of the arguments |
| Cat.ConcatOne | core/commands/cat.go:131-187 | and each contributes its own data |
| Cat.OutputJoins | core/commands/cat.go:131-187 | readers are read in the order they were appended |
| ApiFile.ApiFile.Reset | client/rpc/apifile.go:78-96 | succeeds iff answered at a cursor that is not negative, and then holds exactly the content from the cursor on, as `cat` serves it |
| ApiFile.ApiFile.Read | client/rpc/apifile.go:98-104 | the bytes at the cursor, which advances by as many; nothing only at the end |
| ApiFile.ApiFile.ReadAt | client/rpc/apifile.go:106-123 | succeeds iff answered at a position that is not negative: the range there, end of file iff short |
| ApiFile.ApiFile.Seek | client/rpc/apifile.go:125-144 | success means the cursor is at the target with the content from there, by either way of getting there; a skip of less than 16 KiB fails exactly past the end, any other seek exactly if not answered or negative |
| ApiFile.Drive | client/rpc/apifile.go:98-144 | any sequence of calls up to the first failure looks like a cursor over the bytes, and answered seeks inside the file do not fail |
| ApiFile.GetFile | client/rpc/apifile.go:176-187 | the file is usable at offset zero iff the first request is answered |
| VerifyPool.StepKeepsInv | core/commands/repo.go:272-347 | under any interleaving no key is in two places, until cancellation every key is in one, and every result describes its block, a block that is fine being reported otherwise only after cancellation |
| VerifyPool.NoSendAfterClose | core/commands/repo.go:351-368 | no result is sent after the channel is closed |
| VerifyPool.ClosedIsComplete | core/commands/repo.go:351-368 | once closed, no key has two results, and every key has one unless the request was cancelled |
| VerifyPool.NeverStuck | core/commands/repo.go:351-368 | until the channel is closed some worker or the closer can go on |
| VerifyPool.VerificationEnds | core/commands/repo.go:351-368 | no run takes more than six steps per block and one per worker and two more, and one that cannot go on has closed the channel |
| VerifyPool.ReadOnlyWithoutDrop | core/commands/repo.go:290-296 | without flags the store never changes |
| VerifyPool.GoodBlockGoesOnlyCancelled | core/commands/repo.go:285-316 | a block that was fine is gone only with removal asked for and the request cancelled |
| VerifyPool.GoodBlockMayGoIff | core/commands/repo.go:285-316 | some run removes a block that is fine iff removal is asked for |
| VerifyPool.ResultsTellWhatWasDone | core/commands/repo.go:283-347 | in every run a result is a failed removal iff a deletion of its block failed, a removal iff one went through, a heal or a failed heal iff a fetch did or failed |
| VerifyPool.NothingFailedMeansRepaired | core/commands/repo.go:298-345 | if no deletion fails, a finished verification with removal leaves no bad block and succeeds; with heal, if no heal fails, every block is back |
| VerifyPool.Report | core/commands/repo.go:462-548 | the counters count the outcomes, and success is decided by them unless the request was cancelled, which fails |
| VerifyPool.CountersMeanBlocks | core/commands/repo.go:462-491 | corrupted is the number of unreadable blocks; with drop it is removed plus remove-failed, with heal removed is healed plus heal-failed |
| VerifyPool.SuccessMeansRepaired | core/commands/repo.go:510-548 | success iff nothing was unreadable, or drop was asked for and nothing unreadable is left and, with heal, every block is back |
| Streams.StreamRegistry.Register | p2p/stream.go:75-87 | the stream is recorded with its peer under a fresh id, and counts and tags stay right |
| Streams.StreamRegistry.Deregister | p2p/stream.go:90-106 | a known stream is forgotten and counted down, an unknown id changes nothing |
| Streams.StepKeepsInv | p2p/stream.go:43-120 | counts equal registered streams, tags follow counts, each stream is counted down once when it leaves, with both ends closed |
| Streams.RunKeepsInv | p2p/stream.go:43-120 | the same over every run with fewer than 2^64 registrations |
| Streams.IdsGiven | p2p/stream.go:82-84 | after n registrations the ids given are exactly those below n and 2^64 |
| Streams.FreshIffNotWrapped | p2p/stream.go:82-84 | a registration gets a new id iff fewer than 2^64 were made before it |
| Streams.StepRecords | p2p/stream.go:75-106 | a registration records its peer under its id, and the last action of a closer takes exactly its stream out |
| Scrub.ScrubMap | core/commands/config.go:330-350 | never fails and yields the scrubbed tree in any iteration order |
| Scrub.ScrubEither | core/commands/config.go:315-328 | objects are scrubbed further, any other matched value is dropped without error |
| Scrub.ScrubDropsCovered | core/commands/config.go:330-350 | a leaf is dropped iff the selector covers its path, and is otherwise unchanged |
| Scrub.ScrubbedPlaces | core/commands/config.go:330-350 | place by place: all is as it was where the selector does not cover the path; where it does only objects are left down to its end, empty there and with nothing below |
| Scrub.MatchesWhat | core/commands/config.go:336 | a star matches every part, any other pattern exactly the parts that fold like it |
| Scrub.ScrubAgreesIffUndotted | core/commands/config.go:209-223 | the scrub and the dotted-path matcher decide the same on every tree and selector iff no segment of the path has a dot |
| Scrub.CoverageAgreesIffUndotted | core/commands/config.go:209-223 | a path and its dotted form are covered by the same selectors iff no segment has a dot |
| Scrub.DottedSegmentsDisagree | core/commands/config.go:209-223 | an instance with a dotted key |
| Scrub.MatchesGlobPrefix | core/commands/config.go:209-223 | true iff path parts and patterns match as far as both go |
| Scrub.SplitJoin | core/commands/config.go:210 | splitting a dotted path gives back its segments |
| Scrub.ScrubIsIdempotent | core/commands/config.go:330-350 | scrubbing twice is scrubbing once |
| Scrub.ScrubsCommute | core/commands/config.go:330-350 | scrubs with different selectors commute |
| Scrub.ShowConcealsExactly | core/commands/config.go:273-286 | after several scrubs a leaf is gone iff one of the selectors covers it |
| AddLock.StepKeepsInv | core/commands/add.go:543-633 | how many locks an add goroutine holds at each point, for all options, with pinned adds pausing for a waiting collector |
| AddLock.NeverRequestsTwice | core/commands/add.go:547-556 | no goroutine requests the pin lock while holding it, and a request waits while a collector waits or collects |
| AddLock.ExposedOnlyUnderLock | core/commands/add.go:555-576 | blocks written and not yet pinned or linked are held under the lock, and so is linking |
| AddLock.DoneMeansDone | core/commands/add.go:559-633 | a goroutine through without a failure has written, pinned if asked to, linked if asked to, and holds no lock |
| AddLock.FailsOnlyByAction | core/commands/add.go:559-633 | and it fails only if one of its actions does |
| AddLock.NeverStuck | core/commands/add.go:543-633 | no run with a waiting collector deadlocks |
| NoFlush.Bounded | core/commands/files.go:56-81 | with T concurrent operations the counter never exceeds the limit plus T - 1 |
| NoFlush.BoundIsReached | core/commands/files.go:71-80 | for every limit and T some run gets there |
| NoFlush.KeptIffSingle | core/commands/files.go:71-80 | the limit itself is kept in all runs iff T is 1 |
| NoFlush.CounterCounts | core/commands/files.go:56-81 | the counter is the number of operations let through since the last flush |
| NoFlush.RefusedIff | core/commands/files.go:71-77 | an operation is refused iff the limit is positive and reached, a flush never is |
| RmBlocks.Remover.FilterPinned | blocks/blockstoreutil/remove.go:78-96 | pinned keys are reported, the others returned, in order |
| RmBlocks.PinnedKeysMember | blocks/blockstoreutil/remove.go:85-94 | exactly the keys the pinner calls pinned are reported pinned |
| RmBlocks.AnswersJoin | blocks/blockstoreutil/remove.go:85-94 | in the order of its answers, and so are the others returned |
| RmBlocks.ReportTells | blocks/blockstoreutil/remove.go:49-68 | each kind of report is made of a key iff that happened to it |
| RmBlocks.Remover.RmBlocks | blocks/blockstoreutil/remove.go:37-71 | never more results than the channel holds; a failed pin check deletes nothing; exactly the multihashes of unpinned keys go for which nothing fails; pinned keys are reported, then each other key in order with what happened; if nothing fails the block of a pinned key is spared iff no unpinned key is an alias of it |
| RmBlocks.PinnedBlockSparedIff | blocks/blockstoreutil/remove.go:47-62 | the block of a pinned key is spared iff no unpinned requested key shares its multihash |
| RmBlocks.AliasRemovesPinnedBlock | blocks/blockstoreutil/remove.go:47-62 | a request in which it is not |

## Left out

- The pinner, MFS, the block service, bitswap, libp2p and the datastores are not part of this model; they appear as contracts: pin streams that end early only when cancelled, a walk that fetches what its visitor accepts, a reader-writer lock, router constructors that succeed or fail.
- The FFI layer, the rest of the RPC client, command options and encoders, logging, metrics and key handling: foreign calls, I/O and user interface.
- Which of several errors a map iteration meets first, and error texts.
- Timeouts as times: a timeout is a failure that may happen.
- Link names and output formats of `refs`: an edge is its two CIDs.
- Null router parameters, which make the type assertions in `parse` panic: every configuration here has parameters of its type.
- Unicode case folding: matching is over an arbitrary per-character folding function.
- Identity-hash CIDs, whose blocks are never stored: every CID here stands for a stored or missing block.
- Block deletions by `repo verify --drop` and `block rm` during a collection: in `GcProtocol` only the collector deletes.
- GcSchedule.MarkIffScheduled: not shown for several MFS roots where, of CIDs of different codecs sharing a multihash, one is to be expanded and another is not; the order of the roots may then rule marks out, and `GcLoss.MayDeleteIffExposed` with it is about the step system.
- Refs.RefWriter.WriteAll: stated for acyclic link graphs, which content addressing guarantees.
- Routing.HasHttpProvider: the call stack is a depth that can be as large as needed; does not model a stack overflow.
- Streams.RunKeepsInv: stated for fewer than 2^64 registrations, after which ids are given again.
- VerifyPool.StepKeepsInv: results can always be shown to the user.
- NoFlush.Bounded: does not model int64 overflow of the counter, which needs a limit next to 2^63.
- RmBlocks.Remover.RmBlocks: takes from the pinner at most one answer per requested key, and for an empty request promises room for its results only if the pin check succeeds.
