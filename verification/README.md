# A verified model of NodeRampart's local algorithms

NodeRampart observes a host: it ingests the systemd journal, counts interface
traffic, validates downloaded GeoIP databases and price catalogues, and shows
estimates and logs. This project models the parts of it that carry branching,
state or arithmetic, and proves what they are for.

| file | models | main results |
|---|---|---|
| `MmdbFormat`, `MmdbBounds`, `MmdbWriter`, `MmdbValues`, `MmdbPreflight` | the memoised preflight of an MMDB data section | the cached, budgeted parser agrees with the plain recursion over every cache content and collision; the recursion reads exactly what the format's writer wrote; data is accepted exactly if it is a row of written values within the budgets |
| `SearchTree` | the walk that bounds an MMDB search tree | a tree is accepted exactly if its left-to-right walk stays within the depth limit and its unrolled count within the budget; no cycle then exists; records round-trip in all three layouts |
| `JournalTrace`, `JournalRun`, `JournalIngest`, `JournalSafety`, `JournalOnce`, `JournalRecovery`, `JournalProgress`, `JournalOutcome` | reliable journal ingest | the ingest loop's history is exactly a function of its attempts; safety of every history: no silent skip, no second delivery, degradation before checkpoint, bounded replay, recovery only by new trusted ingest; progress: an attempt reads on exactly unless something in its lines stops it, and then accounts for and delivers all of them |
| `ReadGate` | the sensor read gate | the burst-and-rate bound over every window, and its converse: frames are delayed exactly when they exceed it; paced senders are never delayed |
| `NetCounters` | traffic deltas | what is emitted is the growth of the maximal clean segments; a run stops exactly at a refused name or a cancelled delivery |
| `Billing`, `Pricing`, `Sorting` | tiered estimates and tariff normalisation | the estimate is the unique integral of the marginal price; normalisation keeps the published price and cost, in any catalogue order |
| `DefaultRoutes`, `RouteWriter` | route attributes and default-link choice | parsing a serialised message is the fold over its attributes, and whatever parses is a serialised message; selection depends on the set of routes alone |
| `JsonWalk` | the catalogue's structural check | accepts exactly the flattenings of one document within the limits |
| `StderrBuffer`, `Pages`, `Utf8` | bounded stderr, paginated output | first and last 4 KiB of everything written; pages that lose nothing and split no character |
| `ReleaseOrder` | product tags and the newest release | keys decide exactly the canonical tags, injectively, in semantic-version precedence; the newest release is unique |

Conventions of the model:

- A Go struct whose methods update it is a class; loops stay loops; each method is
  tied by its contract to a pure function or predicate about which the lemmas speak.
  The local variables of the journal's read loop travel as a value (`Reader`).
- Integer widths are subset types (`uint32`, `uint64`), so every store and
  subtraction is proved to fit; saturation and truncation are written out
  (`Charge`, `Pack`). Byte shifts and ors are written as arithmetic on disjoint bits.
  The cache mask `& (len-1)` is written as a remainder, the slot count being a power
  of two.
- A context is a function from its n-th query to "cancelled". The consumer's
  acknowledgement and the outcome of `OnDegradation` come along with each journal
  line, so they are arbitrary. A run is a finite list of attempts, lines, polls or
  turns, stopped anywhere.
- Journal times are nanoseconds. The journal claims that need an ordered journal
  (distinct cursors, reception times that never go back) and a reader that never
  jumps over a record carry that as the hypothesis `World.orderly`; the claim that
  needs an initial time to come with an initial cursor carries `World.anchored`.
  `journalctl` may otherwise start anywhere, repeat itself, and garble any line.
- Money and usage are exact reals. `ToLower`, `cleanText`, `ValidInterfaceName`,
  interface lookup and timestamp validation are parameters.
- The 128 limit of the search-tree walk bounds the depth of arrival only: a finished
  subtree is reused without rechecking its height. `Tree.Reach` is that walk without
  its counts, and `TallTree` an accepted tree that is taller.

## Model

| member | source | states |
|---|---|---|
| `MmdbFormat.ExpandExact` | internal/assets/mmdb_bounds.go:117-305 | the nesting limit decides only whether an expansion is reported: its height fits the limit, and every limit that admits it reports the same end, values, bytes and height |
| `MmdbFormat.ChainDescends` | internal/assets/mmdb_bounds.go:132-139 | if an ancestor on the active path expands, each step down the path spends one level, down to the current offset |
| `MmdbFormat.CycleUnbounded` | internal/assets/mmdb_bounds.go:132-138 | an offset met again on its own active path has no expansion at any depth |
| `MmdbFormat.ResumeStep` | internal/assets/mmdb_bounds.go:249-258 | reading one more item keeps "items so far joined with the remaining items is the whole container", at the parser's depth, and needed at every depth |
| `MmdbFormat.UnboundedParent` | internal/assets/mmdb_bounds.go:183-209 | a field whose header is malformed, or whose target or items never expand, never expands itself |
| `MmdbBounds.Charge` | internal/assets/mmdb_bounds.go:103-110 | a saturating charge is admitted exactly when the mathematical sum is within the limit; no wrap-around admits more |
| `MmdbBounds.ValueBounds.constructor` | internal/assets/mmdb_bounds.go:32-39 | a fresh checker: zero counters, empty cache, at least one and at most 262144 slots |
| `MmdbBounds.ValueBounds.Parse` | internal/assets/mmdb_bounds.go:117-305 | cache transparency: success gives exactly the plain recursion's summary and charges exactly its values and bytes with no more operations than it; "bounds" means no depth expands the value; any other failure without cancellation means the plain expansion does not exist within 32 levels or does not fit the budgets; a value on its own active path is refused as out of bounds; the cache stays true |
| `MmdbBounds.ValueBounds.Lookup` | internal/assets/mmdb_bounds.go:142-151 | a slot hits exactly when it holds this very offset, whatever collided there before, and a hit is the true summary; looking changes no entry |
| `MmdbBounds.ValueBounds.ChargeHit` | internal/assets/mmdb_bounds.go:150-160 | a hit charges the full expansion, and is refused exactly when a fresh parse at this depth and with these budgets would be |
| `MmdbBounds.ValueBounds.ParseFresh` | internal/assets/mmdb_bounds.go:163-179 | a finished value is summarised without truncation and, for a pointer target, left in the offset's slot; recursion left the active path in place |
| `MmdbBounds.ValueBounds.ParseItems` | internal/assets/mmdb_bounds.go:245-258 | the items loop computes the plain recursion's end, height and charges over all items |
| `MmdbBounds.ValueBounds.ReadHeader` | internal/assets/mmdb_bounds.go:180-235 | the control byte, extended kinds and sizes, and pointer forms decode as the format's big-endian definition |
| `MmdbBounds.ValueBounds.Check` | internal/assets/mmdb_bounds.go:41-73 | acceptance implies acceptable data, with totals equal to the sums over records; a refusal that is not a cancellation seen here means unacceptable data or more values than the work limit |
| `MmdbBounds.CheckValues` | internal/assets/mmdb_bounds.go:27-30 | the same for a fresh checker on data of any size; with AcceptableIffPlaced, what is accepted is said of the writer's values alone |
| `MmdbBounds.NextAcceptable` | internal/assets/mmdb_bounds.go:52-71 | in acceptable data the record at the loop's offset expands within every budget, and its sums are part of the totals |
| `MmdbValues.HeadRead` | internal/assets/mmdb_bounds.go:180-236 | a field head written with its kind, extended kind and size form is read as that kind and size, right after its own bytes |
| `MmdbValues.HeadFound` | internal/assets/mmdb_bounds.go:180-236 | conversely whatever kind and size are read were written so; each size has one form |
| `MmdbValues.PointerRead` | internal/assets/mmdb_bounds.go:183-205 | each of the four pointer forms is read as the target it was written for, each form continuing where the shorter one ends |
| `MmdbValues.PointerFound` | internal/assets/mmdb_bounds.go:183-205 | conversely every pointer that is read is one of the four forms of its target |
| `MmdbValues.WrittenExpands` | internal/assets/mmdb_bounds.go:117-305 | a written value, its pointers' targets written where they point, expands to exactly its end, one value for each key, value, item and pointer, its charge and its height; maps are lists of key-value pairs |
| `MmdbValues.ExpandsWritten` | internal/assets/mmdb_bounds.go:117-305 | conversely everything that expands is such a written value |
| `MmdbValues.ExpandIffWritten` | internal/assets/mmdb_bounds.go:117-305 | so the plain recursion reports a summary exactly where a finite value of allowed height is written, which it measures |
| `MmdbValues.UnboundedHasNoValue` | internal/assets/mmdb_bounds.go:134-138 | where no depth expands, as in a pointer cycle, no finite value is written |
| `MmdbPreflight.AcceptedPartition` | internal/assets/mmdb_bounds.go:41-73 | accepted data is partitioned exactly by its top-level values; each is a finite written value of height at most 32, at most 16384 values and 8 MiB charged, and its summary is what the value measures |
| `MmdbPreflight.AcceptableIffPlaced` | internal/assets/mmdb_bounds.go:41-73 | acceptance without the reader: the data is a row of written values, each and together within every budget, and for metadata a single map |
| `Utf8.EncodedValid` | internal/assets/mmdb_bounds.go:299-301 | text encoded character by character is valid |
| `Utf8.ValidEncoded` | internal/console/console.go:405 | valid text is the encoding of Unicode scalar values, without surrogates and up to U+10FFFF |
| `SearchTree.RecordRoundTrip` | internal/assets/geo.go:399-410 | each 24, 28 and 32-bit layout decodes what a writer encodes |
| `SearchTree.ChildrenWritten` | internal/assets/geo.go:396-410 | in data written row by row, whatever follows it, a node's children are its row's records, in all three layouts |
| `SearchTree.UnrolledWritten` | internal/assets/geo.go:381-426 | so the unrolled count of a written tree is that of its pairs of records |
| `SearchTree.Tree.UnrolledGrows` | internal/assets/geo.go:381-426 | allowing more levels never changes the node count of an unrolled tree |
| `SearchTree.Tree.NoCycle` | internal/assets/geo.go:385-387 | no walk leads from a node with a finite unrolling back to it |
| `SearchTree.Tree.ReachFinite` | internal/assets/geo.go:381-426 | whatever the walk completes has a finite unrolling, shared subtrees included |
| `SearchTree.Tree.LowReached` | internal/assets/geo.go:384-390 | a node whose unrolling fits the levels left is always completed, whatever was finished before |
| `SearchTree.Walker.Walk` | internal/assets/geo.go:381-426 | success returns the exact size of the node's finite unrolling, within the budget, finishes exactly the nodes that a left-to-right walk with these levels finishes, and restores the colours of the stack; "cycle or depth" means that this walk cannot be completed, "budget" that no unrolling fits, and cancellation that a query answered so |
| `SearchTree.StackCycle` | internal/assets/geo.go:385-387 | a node met again while being walked has no finite unrolling |
| `SearchTree.AcceptedAcyclic` | internal/assets/geo.go:372-429 | in an accepted tree no walk from the root, however long, meets a node twice |
| `SearchTree.BoundTree` | internal/assets/geo.go:372-429 | metadata is refused exactly when the node count, as a signed integer, or the record size does not fit the data, so reads stay in bounds; unless seen cancelled, exactly those trees are accepted whose left-to-right walk never arrives anywhere beyond depth 128, counting arrivals at finished nodes, and whose root count is at most 40,000,000 |
| `SearchTree.AcceptedMeans` | internal/assets/geo.go:384-420 | acceptance in plain numbers: 129 levels for the walk, 40,000,000 nodes for the unrolled tree |
| `SearchTree.LowAccepted` | internal/assets/geo.go:384-390 | in particular every tree of at most 129 levels within that budget |
| `SearchTree.SpineRefused` | internal/assets/geo.go:384-387 | a tree whose left records lead through 130 nodes is refused |
| `SearchTree.TallAccepted` | internal/assets/geo.go:384-390 | a concrete accepted tree of 201 levels: a finished subtree is reused without rechecking its height |
| `JournalIngest.RunReliable` | internal/collector/journal_reliable.go:85-243 | invalid bounds are refused; otherwise the history is safe, whatever the journal, reader, consumer and degradation recorder do, and is exactly what these attempts call for |
| `JournalIngest.BoundsMean` | internal/collector/journal_reliable.go:89-103 | the bounds a caller may give, zero standing for the defaults |
| `JournalIngest.Ingest.Publish` | internal/collector/journal_reliable.go:109-150 | failure evidence changes exactly as the status says, quality loss is acknowledged only if durably recorded, and the pending fallback is never needed |
| `JournalIngest.Ingest.Deliver` | internal/collector/journal_reliable.go:191-207 | an acknowledged delivery moves the cursor to the entry; a refused one moves nothing |
| `JournalIngest.Ingest.Launch` | internal/collector/journal_reliable.go:169-189 | the launch uses the cursor, acknowledged time and forced start that the history determines, and declares every cold start; nothing else is added to the history |
| `JournalIngest.Ingest.RunOnce` | internal/collector/journal_reliable.go:168-241 | one loop iteration adds exactly its launch, its attempt, the loss it declares, the retry and the delay |
| `JournalIngest.Ingest.RunAttempt` | internal/collector/journal_reliable.go:249-385 | from any steady state one attempt reads its lines in order, exactly as far as nothing stops it, and ends in a steady state for exactly the reason that did, with evidence to report |
| `JournalIngest.Ingest.HandleRecord` | internal/collector/journal_reliable.go:321-371 | a decoded record has exactly its effect: the boundary is verified before anything is delivered, stale and excess records end the attempt, others are offered once; nothing is unaccounted behind the frontier, replay stays within its limit |
| `JournalIngest.Ingest.LoseQuality` | internal/collector/journal_reliable.go:309-320 | reading continues past a bad line only once its loss is durably recorded |
| `JournalIngest.Ingest.Sleep` | internal/collector/journal_reliable.go:230-240 | records the restart delay, which starts over after progress or a lasting attempt and otherwise doubles, within its bounds |
| `JournalProgress.ReadsOn` | internal/collector/journal_reliable.go:303-376 | an attempt reads all its lines exactly when every loss is durably recorded, no delivery refused, the boundary met, nothing stale after it and the replay within its limit; it has then recorded every bad line and delivered every record of its window, in order, and resumes from the last |
| `JournalProgress.StopsEarly` | internal/collector/journal_reliable.go:303-376 | a stopped attempt has done a first part of the same; if persisting failed, the event that failed is the last one and the only one |
| `JournalProgress.AttemptProgress` | internal/collector/journal_reliable.go:190-242 | over a whole loop iteration: what is recorded and delivered is a first part of what the attempt's lines call for, all of it if nothing stops the attempt, and the cursor then stands at the last record of its window |
| `JournalProgress.DeliversAfterBoundary` | internal/collector/journal_reliable.go:321-329 | an attempt launched with a cursor delivers nothing unless the first record it can read is the boundary with that very cursor |
| `JournalProgress.OneLaunchEach` | internal/collector/journal_reliable.go:168-241 | every attempt is launched exactly once, at its time, and followed by exactly one delay |
| `JournalProgress.OwedIsRead` | internal/collector/journal_reliable.go:307-360 | every recorded or delivered event of an attempt is about one of its lines, with that line's answer |
| `JournalProgress.WindowDelivered` | internal/collector/journal_reliable.go:342-360 | every record of the window is delivered, unless its cursor was the one already acknowledged |
| `JournalProgress.LatestInWindow` | internal/collector/journal_reliable.go:194-199 | the cursor left standing is that of the last record in the window |
| `JournalOutcome.ReplayDelivered` | internal/collector/journal_reliable.go:169-225 | replay from a checkpoint within the window: an attempt whose lines follow the checkpoint's record delivers every record received in the window, and moves the cursor to the last one |
| `JournalOutcome.LaunchKeepsCursor` | internal/collector/journal_reliable.go:171-175 | a launch gives the cursor up exactly if it was acknowledged before the window, and with a cursor reads from the window's start |
| `JournalOutcome.DeliveredIsGood` | internal/collector/journal_reliable.go:307-335 | only lines that decode to an addressable record not older than the start are delivered |
| `JournalOutcome.BadIsRecorded` | internal/collector/journal_reliable.go:309-320 | every oversized or undecodable line is recorded as malformed, with its own recorder's answer |
| `JournalOutcome.WhyStopped` | internal/collector/journal_reliable.go:321-371 | each reason to stop has its line: a first record that is not the boundary, a record older than the start, one more than the replay limit, or a failed recording or delivery |
| `JournalOutcome.AttemptEnds` | internal/collector/journal_reliable.go:212-229 | how an attempt ends: the reason its lines or its process give, a declared loss of the cursor for three of them, a reported retry |
| `JournalOutcome.RunOpens` | internal/collector/journal_reliable.go:158-162 | an initial cursor that is no valid cursor is given up with a declared loss before the first attempt |
| `JournalSafety.NoSilentSkip` | internal/collector/journal_reliable.go:158-242 | over all runs, every journal position between two successively acknowledged ones is covered by a loss gap, or by its own durably recorded bad-line status, published between the two acknowledgements |
| `JournalSafety.NoSilentSkipFromCheckpoint` | internal/collector/journal_reliable.go:158-162 | the same from the checkpoint the run was started with |
| `JournalOnce.NeverDeliveredAgain` | internal/collector/journal_reliable.go:158-242 | the dual: over every run with an orderly journal and readers that read on, each delivery lies beyond all positions acknowledged before it, so no acknowledged record is delivered again across restarts and lost cursors |
| `JournalOnce.CursorAtTop` | internal/collector/journal_reliable.go:194-199 | the cursor carried on names no position before the furthest acknowledged one |
| `JournalOnce.TimeAtTop` | internal/collector/journal_reliable.go:176-182 | the acknowledged time carried on is no earlier than the furthest acknowledged record's reception |
| `JournalOnce.LinesOnce` | internal/collector/journal_reliable.go:303-376 | an attempt launched behind its boundary, or behind a start later than anything acknowledged, delivers only beyond what is acknowledged |
| `JournalSafety.ColdStartDeclared` | internal/collector/journal_reliable.go:171-188 | an attempt is launched without a cursor only if a loss gap was published that no acknowledgement has followed |
| `JournalSafety.LaunchStart` | internal/collector/journal_reliable.go:169-188 | every attempt starts reading a window before its launch; later only at the microsecond after the acknowledged time, when it has no cursor, or where an attempt was launched that hit its replay limit with nothing acknowledged since; before none of these |
| `JournalSafety.LaunchState` | internal/collector/journal_reliable.go:171-190 | it is told the cursor and acknowledged time of the history so far, and no cursor acknowledged before the window |
| `JournalSafety.CursorIs` | internal/collector/journal_reliable.go:173-226 | the cursor carried on is the last acknowledged record's, unless a loss was declared since |
| `JournalSafety.CursorInitially` | internal/collector/journal_reliable.go:158-162 | before any acknowledgement it is the initial one, with the same exception |
| `JournalSafety.AckTimeIs` | internal/collector/journal_reliable.go:196-198 | the acknowledged time carried on is the latest of the initial one and every acknowledged record's reception |
| `JournalSafety.DegradationBeforeCheckpoint` | internal/collector/journal_reliable.go:139-149 | after a degradation could not be recorded, nothing is delivered before the next launch |
| `JournalSafety.UntrustedRecordedFirst` | internal/collector/journal_reliable.go:345-350 | an untrusted or malformed entry is delivered only right after its quality loss was durably recorded |
| `JournalSafety.BoundedReplay` | internal/collector/journal_reliable.go:304-371 | an attempt launched without a cursor delivers nothing received at or before the acknowledged time; before its first live entry an attempt delivers at most MaxBackfill entries, all received before its launch |
| `JournalSafety.LiveIsLive` | internal/collector/journal_reliable.go:330-332 | what an attempt counts as live was received at or after its launch |
| `JournalSafety.RecoveryNeedsIngest` | internal/collector/journal_reliable.go:165-167 | in a safe history, after a published quality loss, or from a start with recovery pending, a process start is reported as running only once a trusted entry has been newly persisted in between; restarts and duplicate acknowledgements never recover it |
| `JournalSafety.RetryingNeedsLoss` | internal/collector/journal_reliable.go:296-302 | conversely a process start is reported as retrying only over a quality loss that no such entry has followed |
| `JournalSafety.RecoveryReported` | internal/collector/journal_reliable.go:361-366 | record_persisted is published only right after such an ingest |
| `JournalRecovery.RecoveryAnnounced` | internal/collector/journal_reliable.go:200-204 | over every run, a newly persisted trusted entry is followed at once by record_persisted exactly if failure evidence was retained when it came |
| `JournalRecovery.EvidenceIs` | internal/collector/journal_reliable.go:115-137 | evidence is retained exactly from a quality loss, a reported retry or a pending start until the next record_persisted |
| `JournalSafety.BackoffBounded` | internal/collector/journal_reliable.go:230-240 | every restart delay lies between its bounds; it is the minimum after progress or a minute, and otherwise twice the delay before it up to the maximum |
| `ReadGate.SensorReadGate.Reserve` | internal/daemon/sensor_rate.go:22-46 | the ready time leads the virtual schedule by at most burst-1 intervals, and each wait moves the schedule one interval on from now at the earliest |
| `ReadGate.SensorReadGate.ReadComplete` | internal/daemon/sensor_rate.go:51-57 | a completed read moves the schedule at least one interval past its completion |
| `ReadGate.SensorReadGate.Serve` | internal/daemon/sensor_rate.go:22-57 | over any calls of one reader, however late its timer fires and its frames arrive, every read is held to its ready time, and the schedule is the fold the bounds speak of |
| `ReadGate.ScheduleAdvances` | internal/daemon/sensor_rate.go:48-57 | after a completed read the schedule has advanced one interval for it and for each later completion |
| `ReadGate.RateBound` | internal/daemon/sensor_rate.go:22-57 | if k reads complete within any window, (k - max(burst,1)) intervals fit in it, whatever the idling and reconnects |
| `ReadGate.ServedIffConforming` | internal/daemon/sensor_rate.go:22-57 | reads made the moment their frames arrive were allowed if and only if no stretch of frames exceeds burst frames plus one per interval |
| `ReadGate.PacedNeverDelayed` | internal/daemon/sensor_rate.go:11-14 | a sender of at most burst frames per round, not slower within a round than one frame per interval, with rounds starting at least burst intervals apart, finds the gate open whenever a frame arrives |
| `NetCounters.RunSet` | internal/collector/netdev_set.go:27-125 | the deltas are exactly those the processed polls call for, in order; per interface and counter their total is the growth summed over the maximal clean segments; a run fails exactly at the first invalid or repeated name, is cancelled only at a due delta with every earlier one delivered, and otherwise processes all polls |
| `NetCounters.RunPoll` | internal/collector/netdev_set.go:46-101 | each poll leaves exactly the latest samples as baselines; failed reads, absent or changed interfaces and resets emit nothing; no unsigned subtraction wraps; it fails exactly at the first refused name |
| `NetCounters.DueMeans` | internal/collector/netdev_set.go:86-89 | a delta is due exactly if the poll just before was usable and had the interface under the same positive index, both were read and no counter fell; it is the four differences |
| `NetCounters.SegmentsMaximal` | internal/collector/netdev_set.go:86-98 | the segments are clean and maximal, and every sample lies in one |
| `NetCounters.Telescoping` | internal/collector/netdev_set.go:86-98 | the deltas between neighbouring polls add up to last minus first of each segment |
| `Billing.ValidateAmounts` | internal/billing/billing.go:104-130 | accepts exactly the profiles with a known unit, non-negative allowance and 1 to 32 tiers, bounded ones strictly rising and one last unbounded |
| `Billing.Estimate` | internal/billing/billing.go:136-174 | unavailable exactly for invalid profiles; otherwise the cost of what is billed, which is nothing within the allowance and beyond it exactly the usage the allowance leaves |
| `Billing.BillsBeyond` | internal/billing/billing.go:143-147 | usage of the allowance and x gigabytes more, of the profile's own size, bills exactly x |
| `Billing.Accumulate` | internal/billing/billing.go:148-167 | the tier loop charges the full cost and always ends with nothing remaining |
| `Billing.CostIsIntegral` | internal/billing/billing.go:148-167 | the cost is zero at zero and grows by price times amount within each tier: an integral of the marginal price |
| `Billing.IntegralUnique` | internal/billing/billing.go:148-167 | any integral of the marginal price is that cost |
| `Billing.EstimateMonotone` | internal/billing/billing.go:146-147 | more bytes never cost less, and usage within the allowance costs nothing |
| `Billing.SplitTier` | internal/billing/billing.go:104-167 | splitting a tier in two at the same price changes no cost, and keeps the tiers valid exactly if there were fewer than 32 |
| `Billing.SplitEstimate` | internal/billing/billing.go:136-174 | so a split keeps the billable amount and cost of every estimate, and makes it unavailable exactly for a profile of 32 tiers |
| `Billing.FullProfileSplit` | internal/billing/billing.go:104-130 | a concrete valid profile of 32 tiers that is refused once split |
| `Pricing.MakeTiers` | internal/assets/pricing.go:326-346 | tiers are accepted exactly when some arrangement is contiguous from zero with one final unbounded tier; the result is that arrangement's, so neither collection order nor an unstable sort matters; accepted tiers are valid for billing |
| `Pricing.ContiguousUnique` | internal/assets/pricing.go:327-340 | a contiguous arrangement is the only sorted one of its tiers |
| `Pricing.ContiguousMeans` | internal/assets/pricing.go:328-340 | contiguity in published numbers: from zero, each end the next start, the last unbounded, every price positive |
| `Pricing.CataloguePrice` | internal/assets/pricing.go:328-340 | at every usage the accepted profile's marginal price is that of the published tier covering it |
| `Pricing.CatalogueCovers` | internal/assets/pricing.go:328-340 | every usage is covered by a published tier |
| `Pricing.NormalisedCost` | internal/assets/pricing.go:326-346 | normalised tiers cost what the published ones do, listed in any order |
| `Pricing.AwsTiers` | internal/assets/pricing.go:239-251 | dimensions are accepted exactly when all are supported and their number is in range, and the tiers collected do not depend on map order |
| `Pricing.AwsProfile` | internal/assets/pricing.go:239-251 | from dimensions to profile tiers in one step: the map alone decides whether there is a profile and which, and each dimension's own price holds from its begin to its end |
| `Pricing.OciTiers` | internal/assets/pricing.go:296-319 | accepted exactly when a published free tier is followed, once moved down by its size, by a tariff; the allowance is that tier's published maximum and the profile the other tiers moved down by it; every usage then costs what the published minima, maxima and prices say |
| `Pricing.RebasedCost` | internal/assets/pricing.go:311-318 | moving tiers down by the free amount moves the cost function along |
| `DefaultRoutes.ParseDefaultRoute` | internal/collector/routes_linux.go:34-103 | the loop over the bytes terminates in bounds and interprets each attribute as it is read |
| `DefaultRoutes.ParseSerialised` | internal/collector/routes_linux.go:47-101 | reading serialised attributes, with any padding bytes and flag bits and the last one's padding optional, is the fold over them |
| `DefaultRoutes.ReadIsSerialised` | internal/collector/routes_linux.go:47-101 | conversely, whatever is read without being found broken is a serialised attribute list whose fold is the result; bytes are left over only after the attribute, the last one read, that made the route one to ignore |
| `DefaultRoutes.MessageSerialised` | internal/collector/routes_linux.go:34-103 | the same for a whole default-route message |
| `RouteWriter.MessageRead` | internal/collector/routes_linux.go:34-103 | a message written item by item, in any order and among other kinds, is read as exactly the interface, priority and table written, a default route if the table is the main one; multipath or a nexthop makes it unsupported; the first nonzero address ignores the route, the first repeated, misfit or impossible item breaks it |
| `RouteWriter.GivenRead` | internal/collector/routes_linux.go:56-73 | a number given is the one read, wherever among the items it stands |
| `RouteWriter.HeaderRead` | internal/collector/routes_linux.go:35-46 | any header but that of an unprefixed unicast route that is no clone is ignored, and a short one broken |
| `DefaultRoutes.Choose` | internal/collector/routes_linux.go:198-233 | a family's choice is its best usable route in any dump order; it is incomplete exactly when none is usable or an unsupported one is preferred |
| `DefaultRoutes.BestMeans` | internal/collector/routes_linux.go:198-233 | the choice in plain terms: the least metric, then the least index, among supported routes whose link exists, is up, no loopback and validly named; incomplete exactly when there is none or an unsupported route is no later than it |
| `DefaultRoutes.SelectDefaultLinks` | internal/collector/routes_linux.go:194-243 | fails exactly when no family has a usable route; otherwise one or two distinct links sorted by name, exactly the families' choices, partial exactly when a family is incomplete |
| `DefaultRoutes.NameOrder` | internal/collector/routes_linux.go:236-240 | names are ordered by their first different character, a beginning before its continuations |
| `JsonWalk.AllowedWalks` | internal/assets/http.go:164-206 | a document within the limits is walked, consuming precisely its own tokens and count |
| `JsonWalk.WalkIsAllowed` | internal/assets/http.go:164-206 | whatever is walked successfully is the flattening of one document within the limits |
| `JsonWalk.AllowedMembersMeaning` | internal/assets/http.go:181-196 | an object's members are allowed exactly when they number at most 30000, no two lowercased names are equal, none exceeds 256, and the values are allowed |
| `JsonWalk.AllowedMeans` | internal/assets/http.go:164-206 | a document is allowed exactly if it nests at most 16 deep and every string and object keeps its limits |
| `JsonWalk.Checker.Visit` | internal/assets/http.go:164-206 | the recursive visit over the decoder agrees with the functional walk and leaves the same brackets open |
| `JsonWalk.CheckJson` | internal/assets/http.go:159-214 | accepts exactly the token streams of one document: depth at most 16, at most 500000 values, bounded strings and names, at most 30000 members, none equal after lowercasing |
| `StderrBuffer.BoundedStderr.Write` | internal/collector/journal_diagnostics.go:222-242 | after any writes, prefix is the first 4096 bytes, tail the last 4096 of the rest, truncated exactly beyond 8192 |
| `StderrBuffer.BoundedStderr.ShiftDown` | internal/collector/journal_diagnostics.go:235-238 | the in-place shift loses and duplicates no byte it keeps |
| `StderrBuffer.BoundedStderr.Captured` | internal/collector/journal_diagnostics.go:244-252 | untruncated text is everything written; otherwise its first and last 4096 bytes around a newline |
| `Pages.SplitValid` | internal/console/console.go:429-436 | cutting valid UTF-8 at a character start leaves two valid parts |
| `Pages.StartNearby` | internal/console/console.go:431-433 | a character start lies at most three bytes back, so the unguarded scans stop in bounds |
| `Pages.CutValid` | internal/console/console.go:408-433 | cutting valid text at its last character start within a limit loses at most three bytes and leaves both parts valid |
| `Pages.Paginate` | internal/console/console.go:428-438 | the pages concatenate to the text, each valid and at most 16384 bytes, all but the last at least 16381 |
| `Pages.OutputPages` | internal/console/console.go:408-439 | text is cut before and after cleaning at the last character start within 256 KiB, each time losing at most three bytes of valid text; the pages are the result, flagged truncated exactly when something was cut |
| `ReleaseOrder.VersionKeyOf` | scripts/check-current-release.py:29-37 | a key is given for exactly the canonical tags of at most 128 characters, and determines the tag |
| `ReleaseOrder.TagParses` | scripts/check-current-release.py:18-21 | every canonical tag is matched, with its numbers and stage |
| `ReleaseOrder.TagReads` | scripts/check-current-release.py:18-21 | whatever is matched is a canonical tag |
| `ReleaseOrder.VersionKeyInjective` | scripts/check-current-release.py:29-37 | different product tags have different keys |
| `ReleaseOrder.KeyOrderIsPrecedence` | scripts/check-current-release.py:35-37 | tuple order is precedence by item 11 of Semantic Versioning 2.0.0 |
| `ReleaseOrder.PagingIrrelevant` | scripts/check-current-release.py:40-52 | splitting a listing into at most 20 pages changes nothing |
| `ReleaseOrder.PagesListed` | scripts/check-current-release.py:40-52 | a paged listing lists exactly the entries of every page, page by page and in order, and is refused exactly beyond 20 pages or 2000 entries or for an entry that is no object |
| `ReleaseOrder.ListListed` | scripts/check-current-release.py:40-52 | a listing in one piece lists its own entries |
| `ReleaseOrder.NewestUnique` | scripts/check-current-release.py:63-79 | in any order of the entries at most one tag is the newest |
| `ReleaseOrder.NewestMeans` | scripts/check-current-release.py:63-79 | the newest release without keys: a listed, published release of a written version that precedes no other listed one's version |
| `ReleaseOrder.NewestPublished` | scripts/check-current-release.py:63-79 | fails exactly on a bad listing, an unsound product entry or no published product; otherwise returns the published product tag that no other exceeds |
| `ReleaseOrder.CheckPublishedLatest` | scripts/check-current-release.py:116-147 | accepts exactly when the latest release is the newest product, one listed object alone shares its id or tag and equals it, ids are positive and published products distinct |

## Left out

- MmdbBounds: hit, miss, eviction and maximum counters are statistics and are not kept; which of "budget" or "bounds" a doubly invalid value reports is fixed only where stated.
- JournalIngest.RunReliable: subprocess, pipes, signals, timers and cancellation inside an attempt are the end of a line list; diagnostic texts, exit codes and the status fields Since, At and Count are not kept.
- JournalIngest: origin checks and message parsing are the four classes of `Skip`; UTF-8 validity of a cursor is not modelled beyond its length and printable range.
- JournalSafety.NoSilentSkip: a loss gap covers all positions of its interval, as the published status does; it carries no list of them.
- NetCounters.RunSet: interface observations, health reports and callbacks beside the delivered deltas.
- Billing: floating-point rounding, NaN and infinity guards, identity fields of a profile.
- Pricing: catalogue text to number conversion, product selection, timestamps, digests and notes; the AWS free allowance.
- DefaultRoutes: the netlink socket exchange and dump limits; native byte order is taken as little-endian.
- JsonWalk: lexing of JSON text and encoding/json's own syntax errors inside a token; string lengths count characters.
- HTTP transport including `assetStream.Read`, archives, file staging and sandboxing: outside calls.
- Configuration and credential validators, CLI flags, TUI menus, translations, diagnosis texts, storage and notification code: they check fields against fixed lists and formats, draw menus, and pass records to a database or a mail service.
