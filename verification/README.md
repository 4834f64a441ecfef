# Meridian: a verified model of its protocols and algorithms

Meridian is a server for tools around Dream Maker projects. It drives a profiling
helper process, compares and clusters icon files, owns game processes, records what a
build read, searches code and redacts private data. This project models the parts of it
that keep an invariant over a whole run or prove something across several loops, and
proves those properties with Dafny 4.11: `dafny verify dfyconfig.toml`.

## What is modelled

**The collector transport** (`Transport`). Requests share one writer lock and one
registry of pending and abandoned ids and a latched terminal reason. The model is a step
relation at lock granularity. An id is removed under the lock and the transport is failed
in a later step; the reader delivers after it has released the lock; a write can be
abandoned between any two chunks; the owner can be dropped at any time. `RegistryCell`
is the registry as an object, tied to the functions the steps use. The main results
hold for every run: capacities, one own outcome per id, the exact set of replies that
end the transport, a latched reason, outcomes that are never lost on their way, and a wire
that carries whole frames and then nothing after a torn one.

**The child supervisor** (`Supervisor`). Stop schedules, forced kills, reaping and cleanup
passes. A confirmation is never wrong and never withdrawn; a schedule causes at most one
kill. Re-arming after a failed pass is characterised exactly; a second stop with the same
timeout, sent before the first has expired, is not adopted. The force time of an unexpired
schedule is put later by exactly one kind of step, the closed channel noticed after that
time; a run with such a step is given.

**The runtime guardian** (`Guardian`). A lease protocol over owner, guardian, forks and
group members. Pipe end of file, signals that reach the whole group but kill in their own
time, and reserved zombie identities are the kernel's rules. Once the guardian has acted on
end of file nothing owned can start, and what is alive can only die. The report of completed
termination is right: the scan of the process list, one process at a time, misses nobody,
because the signal came first.

**Icon frames and states** (`Frames`, `Comparison`, `Classes`, `FrameSearch`). Pixel
permutations, cropping, palette comparison by first-occurrence numbers, classification of
states. The class of two states does not depend on their order, and each class is
characterised by the images alone.

**Candidate index and clusters** (`Streams`, `Candidates`, `MissedPalette`, `Digests`,
`DuplicateIndex`, `Clusters`). Byte streams fed to digests, signatures, buckets, pairs
under a cap, union-find with path halving, ordered clusters. The index misses no pair whose
pixels match unchanged. It does miss palette matches: colours are numbered per state in the
index but per frame in the comparison. Two states share a palette signature exactly when
one colour bijection, valid across all their frames, relates them under some transforms;
below the cap such pairs are compared, and a palette match that has none is given.

**Cache and scans** (`IconLimits`, `DmiCache`, `AssetScan`). The least-recently-used cache
with its byte count, and the budgets of a scan. Whether a file loads does depend on the
cache: only a fresh load runs the metadata preflight, which looks at every running total.
A file for which this matters is given, and the dependence is characterised exactly.

**Image preflight** (`Adam7`, `ChunkWalk`, `MetadataText`). Interlace passes partition the
image (section 2.6 of RFC 2083), the expected size is exact, the second, unchecked chunk
walk is safe and complete because the first one succeeded, and descriptions are accepted
exactly when they are well formed and their totals stay within the limits throughout.

**Build inputs** (`SourceScan`, `BuildClosure`). A line scanner against a reading that
removes block comments character by character, and the worklist on top of it: which texts
and which builds are refused, in both directions.

**Redaction** (`Redaction`). The rewriting passes over one text, their termination, their
mutual non-interference, and their equality with one reading of the original text.

**Search** (`SearchTerms`, `SearchIndex`). Ranked search over an inverted index equals
scoring every document from its text; what the scores and their order say.

**Journals** (`JournalStore`, `JournalSession`, `RecordInstall`). Sessions and recoveries
of any number of processes on one store; what a session records, and when the status it
stores is milder than what it observed; the rename sequence that replaces a record.

**Buffers** (`Buffers`, `OutputLog`). The tail of an output stream, bounded lines and the
output log, each exactly determined by the history whatever its chunking.

## Conventions

Requests, sessions, processes and paths are numbers or strings without structure unless
the code looks inside them. Times are integers. Clocks, randomness, the kernel, file
systems, decompression, text decoding, lower-casing and word splitting are inputs: a step
parameter, a flag, or a given function with the laws named in the contract. Where code
runs under a lock, one step of the model is one critical section.

`Run` predicates say that a sequence of states is produced by a sequence of enabled
events from the initial state; results about runs hold for all such sequences. The module
`Runs` states once what an inductive invariant and a lasting relation give for them.

## Model

| member | source | states |
|---|---|---|
| Transport.RegistryCell.FailTransport | src/tracy_collector.rs:278-292 | the first failure is latched, both sets are emptied and the channels taken are handed back; later failures change nothing |
| Transport.RegistryCell.Insert | src/tracy_collector.rs:221-232 | a request enters only while the transport runs and fewer than 256 are pending |
| Transport.RegistryCell.Match | src/tracy_collector.rs:157-172 | a reply takes its id from the pending or the abandoned set, is ignored after a failure, and is unknown otherwise |
| Transport.RegistryCell.DropGuard | src/tracy_collector.rs:72-93 | a dropped guard moves its id to the abandoned set, or only removes it when that set is full or the transport has failed |
| Transport.InvStep | src/tracy_collector.rs:46-94 | every step of any task, the reader or the owner keeps conservation of requests, single use of channels, the capacities and the framing of the wire |
| Transport.Reachable | src/tracy_collector.rs:128-292 | the whole invariant holds in every state of every run |
| Transport.HistoryKept | src/tracy_collector.rs:278-292 | over any stretch of a run the terminal reason, delivered messages, matched replies and registrations stay; a matched reply stays in the reader's hand, and a failure stays to be told, until it is in its channel; a reader that failed matches nothing more; the wire only grows, and stops after a torn frame |
| Transport.CapacityHolds | src/tracy_collector.rs:41-42 | pending and abandoned never exceed 256, and both are empty once the transport has failed |
| Transport.OwnOutcome | src/tracy_collector.rs:165-167 | an id is matched at most once; the message in a request's channel is its own single reply or the very failure that was latched |
| Transport.NoRequestLost | src/tracy_collector.rs:157-172 | while a task owns its guard its channel has a message, or the reply in the reader's hand or the failure still to be told goes there next, or a reply with its id would be taken for it |
| Transport.RequestAnswered | src/tracy_collector.rs:200-245 | a request that finds the transport idle and with room can be carried through: its whole frame goes onto the wire, its reply comes back to it and the registry is as before |
| Transport.ReplyRefusedIff | src/tracy_collector.rs:161-173 | a reply ends the transport exactly when its id was never registered, already had its reply, or belongs to the dropped guard that found the abandoned set full and has not failed the transport yet |
| Transport.LateReplyAbsorbedOnce | src/tracy_collector.rs:168-172 | an abandoned id absorbs exactly one late reply, which reaches no channel; the next one with that id is refused |
| Transport.FailureReachesPending | src/tracy_collector.rs:278-292 | the step that fails the transport owes the latched reason to exactly the requests then pending |
| Transport.SealedStep | src/tracy_collector.rs:215-245 | once no writer is left and the failure is latched or next under the writer lock, no step writes to the wire |
| Transport.WireIsFramed | src/tracy_collector.rs:215-245 | the bytes written are complete frames, no request twice, then at most the beginning of one other frame; after an abandoned frame nothing is ever written |
| Supervisor.InvStep | src/tracy_collector.rs:386-472 | every step keeps: no error-free pass without a good wait, an accepted request and a report of termination; and at most one kill for an adopted schedule |
| Supervisor.ConfirmedForever | src/tracy_collector.rs:700-703 | a confirmed cleanup rests on a successful wait and a terminated containment and is never withdrawn |
| Supervisor.ConfirmedBy | src/tracy_collector.rs:462-470 | only publishing a pass without error turns the confirmation on |
| Supervisor.FailedWaitNeverConfirmed | src/tracy_collector.rs:430-436 | when waiting for the child fails, no later pass confirms the cleanup |
| Supervisor.OneForcePerSchedule | src/tracy_collector.rs:396-428 | kills never outnumber adopted schedules, two kills have an adoption between them, and none follows the wait |
| Supervisor.ForceTimeLaterIff | src/tracy_collector.rs:396-412 | a step moves an unexpired force time later exactly when it is the notice of the closed channel and that time has passed |
| Supervisor.NoticeAdoptsIff | src/tracy_collector.rs:396-412 | an offered schedule takes the place of the one in force exactly when there is none, it has expired, or the new one forces earlier; only then may the child be killed again |
| Supervisor.ForceTimeNeverLater | src/tracy_collector.rs:396-412 | over any stretch under an unexpired schedule without such a notice, the force time never moves later |
| Supervisor.ClosedChannelPostpones | src/tracy_collector.rs:402-405 | a run in which the closed channel moves the force time from 0 to 10 although the adopted deadline is far off |
| Supervisor.LaterStopRearmsIff | src/tracy_collector.rs:624-637 | after a failed pass a stop call starts another one exactly when no schedule was offered before, the last one has expired, or the new one forces earlier |
| Supervisor.RearmedPassConfirmsIff | src/tracy_collector.rs:434-471 | a re-armed pass in which everything succeeds confirms exactly when the wait had succeeded |
| Supervisor.PromptSecondStopIgnored | src/tracy_collector.rs:629-637 | a second stop with the same timeout, before the first deadline, leaves a failed cleanup waiting |
| Supervisor.ForcedAfterReserve | src/tracy_collector.rs:624-637 | after a stop the child may be killed exactly from the moment when half the timeout, at most 250 ms of it, is left |
| Supervisor.PassTimesOut | src/tracy_collector.rs:442-461 | a cleanup pass polls strictly before the deadline of the schedule in force, or for 250 ms without one, and fails if something still runs then |
| Guardian.InvStep | src/process/unix_owner.rs:29-68 | every step keeps: launching forks hold the lease, what executed is in the group, a seen end of file is final, after the group signal every member is doomed, a scan has all living members before it, and the owner signals only an unreaped guardian |
| Guardian.NothingSurvivesEof | src/process/unix_owner.rs:38-68 | once the guardian has acted on end of file no owned process starts, whoever is still alive was alive at the signal, and all are dead or one of them can die |
| Guardian.NothingSurvivesRequest | src/process/unix_owner.rs:171-186 | the same from the owner's successful termination request on |
| Guardian.LeaseUntilExec | src/process/unix_owner.rs:290-302 | a fork that can still become the target keeps the guardian from seeing end of file, even if the owner has died; executed processes are in the group |
| Guardian.NeverStray | src/process/unix_owner.rs:171-213 | the group is never signalled after its guardian was reaped |
| Guardian.HistoryKept | src/process/unix_owner.rs:171-243 | over any stretch of a run a group signal and a report stay, and after the signal no process joins the group's living members |
| Guardian.ScanMissesNobody | src/process/unix_owner.rs:215-243 | while the process list is being read, every member still alive is among the entries yet to be looked at |
| Guardian.ReportIsTrue | src/process/unix_owner.rs:188-243 | the owner is told of termination only when no owned process is alive, then and later |
| Guardian.ReportComes | src/process/unix_owner.rs:188-243 | once everything owned and the guardian have died after a request, the owner can be told so |
| Guardian.LivingEndsScan | src/process/unix_owner.rs:215-243 | looking at a living member ends the scan without a report |
| Frames.PixelStats | src/spaceman/dmi.rs:960-990 | the counts classify every pixel and the bounds are the tightest box around the visible ones |
| Frames.NormalizeFrame | src/spaceman/dmi.rs:399-420 | colours of fully transparent pixels are dropped, all other pixels stay |
| Frames.TargetThenSource | src/spaceman/dmi.rs:578-589 | the row-major target index of every transform is a permutation |
| Frames.TurnInverse | src/spaceman/dmi.rs:572-592 | each transform is undone by its inverse, pixel by pixel |
| Frames.TransformFrame | src/spaceman/dmi.rs:572-592 | the buffer filled in place holds every pixel at its mapped place and is normalized |
| Frames.CropTurned | src/spaceman/dmi.rs:486-512 | cropping commutes with every transform, so crop bounds move with the pixels |
| Frames.DirectionInverse | src/spaceman/dmi.rs:422-449 | the direction maps of a transform and of its inverse undo each other on all eight directions |
| Frames.DirectionsFollowPixels | src/spaceman/dmi.rs:422-449 | directions turn with the pixels: the neighbour in a direction becomes the neighbour in the transformed direction |
| Frames.CornerGoes | src/spaceman/dmi.rs:578-589 | where each transform takes the first pixel and its right neighbour |
| Comparison.UnchangedIffEqual | src/spaceman/dmi.rs:514-553 | the changed count is zero exactly when the crops are equal |
| Comparison.PaletteIffRecolouring | src/spaceman/dmi.rs:514-540 | the palette test holds exactly when one alpha-preserving bijection of colours maps one crop to the other |
| Comparison.CompareAligned | src/spaceman/dmi.rs:477-570 | the pixel loop with its two palettes computes the class, offset, similarity, changed count and largest delta of the crops |
| Comparison.AlignedSwap | src/spaceman/dmi.rs:477-570 | comparing with a transformed right frame and comparing back with the inverse transform give the same class and similarity |
| Comparison.SourceDirInverse | src/spaceman/dmi.rs:639-660 | the source directions of a transform and of its inverse are mutually inverse |
| Comparison.CoversMeaning | src/spaceman/dmi.rs:639-660 | a transform finds a source for every direction exactly when it keeps the direction set: one-direction states admit only the identity and the horizontal mirror |
| Comparison.CompareUnder | src/spaceman/dmi.rs:639-666 | under one transform every direction of every animation frame is compared with its source, or the transform is dropped because a direction has none |
| Comparison.CompareStates | src/spaceman/dmi.rs:609-699 | the loop over transforms, frames and directions reports the class and comparisons of the best candidate, whose meaning the rows on `Classes` give |
| Comparison.ImageMatchIsLeast | src/spaceman/dmi.rs:676-699 | the class is the least, over the usable transforms, of the worst frame class |
| Comparison.RankSwap | src/spaceman/dmi.rs:609-699 | the worst frame class under a transform is that of the swapped states under the inverse |
| Comparison.ImageMatchSymmetric | src/spaceman/dmi.rs:609-699 | the class of two icon states does not depend on the order of the arguments |
| Classes.CropsEqualIff | src/spaceman/dmi.rs:486-553 | two crops are equal exactly when the visible parts of the images are the same up to a shift |
| Classes.ExactIff | src/spaceman/dmi.rs:542-552 | states are exact exactly when in every frame and direction both images are invisible or they are the same image |
| Classes.TransformedIff | src/spaceman/dmi.rs:542-552 | states are transformed exactly when they are not the same images but, under one mirroring or rotation, all visible parts are the same up to shifts |
| Classes.PaddedIff | src/spaceman/dmi.rs:538-552 | states are padded exactly when all visible parts are the same up to shifts as they stand, the images are not all the same, and no mirroring or rotation does it too |
| Classes.PaletteNearIff | src/spaceman/dmi.rs:514-569 | states are palette exactly when no transform makes the visible parts the same but under one each is recoloured by a bijection; near when not even that, but under one transform each is recoloured or differs by no more than the threshold's share |
| Classes.OffsetIsShift | src/spaceman/dmi.rs:557-562 | where visible parts are the same, the reported offset is the shift between them |
| Classes.SimilarityIsShare | src/spaceman/dmi.rs:514-569 | the similarity is one less the distance of the bytes of the two visible parts, as a share of the greatest distance |
| Classes.ReportedIsBest | src/spaceman/dmi.rs:676-699 | the comparisons reported are those under a usable transform than which none is surer, or as sure and more similar on the average |
| FrameSearch.CompareFrames | src/spaceman/dmi.rs:451-475 | the first attempt of greatest similarity among the six wins, promoted to near by the clamped threshold |
| FrameSearch.BestSimilaritySymmetric | src/spaceman/dmi.rs:451-475 | the best similarity of two frames does not depend on their order, and the class found one way is found the other way at that similarity |
| Digests.StateCandidateSignatures | src/spaceman/dmi.rs:701-775 | the loops feed the digests exactly the bytes that define the state's signatures |
| Digests.ShowAll | src/spaceman/dmi.rs:719-732 | the images are collected exactly when every direction has a source under the transform |
| Digests.HashFrames | src/spaceman/dmi.rs:729-758 | one pass over the transformed images leaves exactly the streams and the word that the signatures are defined by |
| Streams.CroppedStreamsEqual | src/spaceman/dmi.rs:727-751 | two cropped byte streams are equal exactly when all crops are |
| Streams.PaletteStreamsEqual | src/spaceman/dmi.rs:727-751 | two palette byte streams, of however many frames, are equal exactly when one alpha-preserving colour bijection, valid across all frames, relates the states; the 32-bit colour numbers never run out |
| Candidates.UnchangedIffShared | src/spaceman/dmi.rs:701-775 | states match with unchanged pixels exactly when the left state's own cropped stream is one of the right state's |
| Candidates.UnchangedShareSignature | src/spaceman/dmi.rs:701-775 | states that match with unchanged pixels share a signature |
| Candidates.SharedPaletteIsMatch | src/spaceman/dmi.rs:701-775 | a palette stream of the right state that is the left state's own means a palette match or better |
| Candidates.PaletteSharedIff | src/spaceman/dmi.rs:701-775 | two states share a palette signature exactly when, under some usable transforms, one colour bijection valid across all frames and directions relates what they show |
| Candidates.ExactSharedIff | src/spaceman/dmi.rs:701-775 | two states share an exact signature exactly when, under some usable transforms, they show the same images |
| Candidates.CroppedSharedIff | src/spaceman/dmi.rs:701-775 | they share a cropped signature exactly when, under some usable transforms, they show the same visible parts |
| Candidates.BandSharedIff | src/spaceman/dmi.rs:755-769 | they share a sampled signature exactly when, under some usable transforms, one quarter of their words agrees |
| Candidates.PerceptualMeaning | src/spaceman/dmi.rs:755-757 | a bit of the word is set exactly when an odd number of images set it, each image seven places before the next |
| Candidates.SampleMeaning | src/spaceman/dmi.rs:777-793 | each of eight by eight samples is set exactly when the pixel there is neither invisible nor black |
| MissedPalette.PaletteMatchMissed | src/spaceman/dmi.rs:736-751 | a palette match under every threshold that no such bijection relates, and that shares no signature of any kind |
| DuplicateIndex.BuildBuckets | src/tools/dmi.rs:320-333 | the buckets list, for each signature, the places that carry it, in order |
| DuplicateIndex.CandidatePairs | src/tools/dmi.rs:334-346 | below the cap the pairs are exactly those that share a signature; at the cap their number is the cap and the scan says so |
| DuplicateIndex.UnchangedPairsFound | src/tools/dmi.rs:320-346 | every pair of states that match with unchanged pixels is a candidate pair |
| DuplicateIndex.RecolouredPairsFound | src/tools/dmi.rs:320-346 | every pair that one bijection across all frames relates is a candidate pair, and a pair none relates is one only by a signature of another kind |
| Clusters.Find | src/tools/dmi.rs:220-226 | path halving returns the root, terminates because parents never exceed their children, and moves no member to another tree |
| Clusters.HalveKeepsRoot | src/tools/dmi.rs:220-226 | pointing a node at its grandparent keeps the forest and every root |
| Clusters.UnionPartition | src/tools/dmi.rs:228-241 | one more comparison keeps trees equal to connected components |
| Clusters.MergeAll | src/tools/dmi.rs:228-241 | rewriting the parents in place for all comparisons makes the trees the connected components |
| Clusters.SameRootIffConnected | src/tools/dmi.rs:228-241 | members have the same root exactly when comparisons connect them |
| Clusters.RootIsSmallest | src/tools/dmi.rs:233-239 | each root is the smallest index of its component |
| Clusters.CollectGroups | src/tools/dmi.rs:243-247 | members are grouped by the root of their tree, which path halving does not move |
| Clusters.MembersExact | src/tools/dmi.rs:206-211 | the members are exactly the ends of the comparisons, in order and each once |
| Clusters.ClusterComparisons | src/tools/dmi.rs:203-289 | the clusters are the components of the comparison graph, every member is placed, and they come in order of confidence and then of their first member |
| Clusters.ClustersDisjoint | src/tools/dmi.rs:243-248 | no member lies in two clusters |
| Clusters.SameClusterIffConnected | src/tools/dmi.rs:203-289 | two members share a cluster exactly when a chain of comparisons joins them |
| Clusters.ClusterEvidence | src/tools/dmi.rs:250-273 | a cluster's evidence is exactly the comparisons inside it, ordered by their ends and never empty; its confidence is the weakest class among them |
| Clusters.ComparisonInCluster | src/tools/dmi.rs:250-260 | every comparison is evidence of the one cluster that holds either of its ends |
| DmiCache.ValidateMetadata | src/spaceman/dmi_decode.rs:304-329 | the running check accepts exactly the metadata whose cells lie inside the sheet and whose state count, total cells and sheet cells fit, and names the first test failed |
| DmiCache.Cache.Evict | src/spaceman/dmi.rs:148-164 | the oldest entries go, by last use and path, until the counts are within the limits; while the byte count is exact it stays so, and no more entries go than must |
| DmiCache.Cache.Install | src/spaceman/dmi.rs:116-166 | what remains is within the limits by the cache's own count and newer than what went; the byte count stays the sum over the entries unless they outgrow the address space, and then never exceeds it; while it is the sum, the new entry stays exactly when it fits alone, unless the clock is saturated |
| DmiCache.NewestKeptIff | src/spaceman/dmi.rs:148-164 | a strictly newest entry survives eviction exactly when it fits alone |
| DmiCache.SaturatedClockDropsNew | src/spaceman/dmi.rs:129-164 | with a saturated clock the entry just installed can be dropped although it fits alone |
| DmiCache.Decode | src/spaceman/dmi_decode.rs:331-385 | decoding from scratch ends with the first error of description, preflight, parser, metadata check and image |
| DmiCache.FreshMeansHit | src/spaceman/dmi.rs:82-110 | what decodes from scratch would also have been let through as a hit |
| DmiCache.FreshIff | src/spaceman/dmi.rs:82-110 | a decoded file that a hit lets through would decode from scratch exactly when the preflight passes its description |
| DmiCache.CacheMattersIff | src/spaceman/dmi.rs:92-110 | whether a file loads depends on the cache exactly when a hit lets it through and a total after some property line, or the length of a delay list, is over the frame limit |
| DmiCache.CacheDecides | src/spaceman/dmi.rs:92-110 | a file of four cells that is loaded when cached and refused for its frames when not, with eight frames left |
| DmiCache.Cache.Load | src/spaceman/dmi.rs:82-110 | a load ends with the first error of its tests, which are those of a hit or those of a decoding; the decode count says whether pixels were reached; a hit moves only its entry's last use; the limits are kept |
| AssetScan.Scan.Add | src/tools/dmi.rs:100-112 | the four totals stay the sums over the assets and within the scan's limits |
| AssetScan.Scan.Load | src/tools/dmi.rs:66-143 | a cached file is added exactly when it is sound and fits the file limits and what is left of the scan's, a fresh one when its description also passes the preflight; a refusal changes only the reasons |
| AssetScan.Scan.CacheDecidesIff | src/tools/dmi.rs:78-95 | for a file that fits, being cached matters exactly when a running total, or a delay list, is over the frames the scan has left |
| AssetScan.Scan.ReasonHolds | src/tools/dmi.rs:113-143 | the reason noted names a limit that the file breaks: its own, or the scan's together with what has been added |
| Adam7.OnePassEach | src/spaceman/dmi_decode.rs:100-109 | every pixel lies in exactly one of the seven passes |
| Adam7.SpanCounts | src/spaceman/dmi_decode.rs:112-113 | the rounded-up quotient counts exactly the grid positions inside the image |
| Adam7.PassesFillImage | src/spaceman/dmi_decode.rs:97-124 | the pass areas sum to width times height |
| Adam7.ExpectedBytes | src/spaceman/dmi_decode.rs:110-128 | saturating products and a checked sum give exactly the filtered size when it is within the limit, and refuse it otherwise below the largest 64-bit limit |
| Adam7.SizeHoldsImage | src/spaceman/dmi_decode.rs:110-124 | the size holds every pixel once, a filter byte a row, and less than a byte of padding a row |
| ChunkWalk.Dimensions | src/spaceman/dmi_decode.rs:10-31 | accepts exactly headed, non-empty images within the pixel limit and reports four bytes a pixel |
| ChunkWalk.MeasureImageData | src/spaceman/dmi_decode.rs:129-150 | the checked walk succeeds exactly on whole, unanimated chunk lists and measures their image data |
| ChunkWalk.GatherImageData | src/spaceman/dmi_decode.rs:151-163 | the unchecked walk stays inside the file when the first one succeeded and gathers exactly the measured data |
| ChunkWalk.Description | src/spaceman/dmi_decode.rs:33-85 | the first describing chunk before the end decides; without one a broken file is an error |
| ChunkWalk.DescriptionBounded | src/spaceman/dmi_decode.rs:44-73 | accepted metadata is text within the limit, stored plain or compressed |
| ChunkWalk.TextReadBack | src/spaceman/dmi_decode.rs:44-73 | a text stored in a describing chunk, plain or compressed, is the text read from it, unless it is too long |
| ChunkWalk.TextStored | src/spaceman/dmi_decode.rs:44-73 | every accepted description was stored in one of these two ways |
| ChunkWalk.ChunksReadBack | src/spaceman/dmi_decode.rs:33-47 | chunks written one after the other are the chunks read, up to the end chunk |
| ChunkWalk.DimensionsReadBack | src/spaceman/dmi_decode.rs:10-31 | the sides written into a header are the sides read from it |
| ChunkWalk.BoundedImageStream | src/spaceman/dmi_decode.rs:87-178 | a file passes exactly when its data expands to the announced size within the limits |
| ChunkWalk.ChannelsMeaning | src/spaceman/dmi_decode.rs:87-95 | the colour types of the format, and how many samples a pixel of each has |
| MetadataText.Preflight | src/spaceman/dmi_decode.rs:194-302 | reports the first error in the order of the lines; an empty description is accepted, another one exactly under the condition below |
| MetadataText.AcceptedIff | src/spaceman/dmi_decode.rs:194-302 | a description is accepted exactly when no line is wrong in itself, the states and cells at the end are within the limits, and the total after every property line and every delay list were within them too |
| MetadataText.StateDescribed | src/spaceman/dmi_decode.rs:226-298 | a state counts the last direction count among its lines, or one, times the frame count, or the length of the delay list, or one |
| MetadataText.LimitNamed | src/spaceman/dmi_decode.rs:226-302 | a limit that the preflight names is broken by the description |
| SourceScan.StripLine | src/build_provenance.rs:537-556 | no comment mark spans a line end, so removing block comments works line by line |
| SourceScan.LineAgrees | src/build_provenance.rs:538-588 | a line the scanner accepts reads the same with comments removed character by character, and leaves the same comment state |
| SourceScan.LineTakenIff | src/build_provenance.rs:536-588 | a line is taken exactly when comments begin at its start and end at its end, and what is left of it is no directive in doubt |
| SourceScan.IncludeIff | src/build_provenance.rs:574-583 | an include is exactly a quoted name alone on its line, without quotes or number signs in it |
| SourceScan.DefineIff | src/build_provenance.rs:560-573 | a definition is skipped exactly when it gives one name one number |
| SourceScan.ScanText | src/build_provenance.rs:532-595 | a text gets no reason exactly when it is lexically plain, its comments are tidy and closed, and the text without them holds no directive in doubt; the includes found are then those of that text |
| BuildClosure.CaptureSources | src/build_provenance.rs:497-595 | with no reason given, the sources are exactly the files reachable through includes, each accepted; when all reachable files are acceptable and fewer than 10000, no reason is added; the worklist ends for any number of aliases, with at most 10000 inputs |
| BuildClosure.Capture | src/build_provenance.rs:465-639 | every input is as it was found; no reason is given when there is an analysis of this environment, fewer than 10000 files are reachable, each acceptable, and everything named can be looked at; with no reason the sources are the reachable files, and everything named is recorded or was absent |
| BuildClosure.Examine | src/build_provenance.rs:506-595 | there is no reason against a file exactly when it was read as it was hashed, is listed, is readable, and includes only source files |
| BuildClosure.AcceptedMeaning | src/build_provenance.rs:506-595 | what a file needs to be accepted: it may be read and is listed, its text is the one hashed and is readable, and its includes are source files |
| BuildClosure.FinishedClosure | src/build_provenance.rs:641-648 | with no reason after the build, the sources are still exactly the files reachable through the includes of the texts found then, every file the analysis or the fixture named and the compiler are unchanged, and what was absent is not there |
| BuildClosure.UnchangedKeepsReason | src/build_provenance.rs:641-648 | a build that changes no recorded file, puts nothing where nothing was and leaves the compiler alone keeps its verdict |
| Redaction.MaskKeepsClean | src/native_evidence/redaction.rs:35-45 | masking one field's value leaves every occurrence of another field as clean as it was |
| Redaction.PassCleans | src/native_evidence/redaction.rs:24-46 | one pass leaves every word-bounded occurrence of its field masked |
| Redaction.SanitizedIsClean | src/native_evidence/redaction.rs:21-49 | afterwards every word-bounded, case-insensitive field assignment is followed by the mask and a delimiter or the end, for all fields |
| Redaction.SanitizeChangesIff | src/native_evidence/redaction.rs:21-49 | a text changes exactly when it holds an unmasked protected value |
| Redaction.SanitizeTwice | src/native_evidence/redaction.rs:21-49 | a second run changes nothing |
| Redaction.SanitizedOnce | src/native_evidence/redaction.rs:21-49 | the passes, each on the text the last one left, do together what reading the original once does: every protected value up to the next delimiter becomes the mask and every other character stays |
| Redaction.OccurrenceMeaning | src/native_evidence/redaction.rs:24-34 | an occurrence is a field's name in any mixture of cases, an equals sign behind it, and no letter, digit or underscore before it |
| Redaction.DelimiterMeaning | src/native_evidence/redaction.rs:36-40 | among ASCII characters the white space, the comma and the semicolon end a value |
| Redaction.SanitizeText | src/native_evidence/redaction.rs:21-49 | the in-place loop terminates and yields that text; the count adds up the markers each field has after its pass, and zero means an unchanged text |
| Redaction.SanitizeField | src/native_evidence/redaction.rs:24-46 | the loop over one field ends although the text grows and shrinks, replaces exactly the field's values, and counts its markers |
| SearchTerms.WeightedTerms | src/search.rs:505-530 | each term has the sum of the weights of its occurrences, and the values sum to the weighted length |
| SearchTerms.FieldWeights | src/search.rs:505-524 | how many times each field's occurrences count |
| SearchTerms.Build | src/search.rs:95-136 | postings, symbol and name lists hold exactly the right documents in order, with frequencies and lengths |
| SearchIndex.PostingsExact | src/search.rs:114-119 | a term's list is ordered, holds the true frequencies, and its length is the document frequency |
| SearchIndex.PostingsComplete | src/search.rs:114-119 | a term's list holds every document with the term and no other |
| SearchIndex.AddTerm | src/search.rs:371-394 | walking a term's list adds to each document that holds the term exactly that term's contribution |
| SearchIndex.IdfPositive | src/search.rs:376-380 | document frequency never exceeds the corpus, so every term has a positive weight |
| SearchIndex.IdfMeaning | src/search.rs:376-380 | a term's weight is the logarithm of the corpus size over its document frequency, each smoothed; a rarer term weighs more (`RarerWeighsMore`) |
| SearchIndex.NormMeaning | src/search.rs:384-388 | the norm is one at the average length and adds three quarters of the relative excess |
| SearchIndex.TermScoreMeaning | src/search.rs:389-392 | the exact value of a term's contribution by weight, frequency and norm |
| SearchIndex.TermScoreOrder | src/search.rs:382-393 | more occurrences score higher and longer documents lower |
| SearchIndex.HitScore | src/search.rs:367-446 | which documents become candidates and what they score: twelve for full names when there is one, two for names that hold the query when nothing is scored, else the text score with six or two on top |
| SearchIndex.Bm25Sign | src/search.rs:382-393 | a document's term score is positive exactly when it shares a term with the query |
| SearchIndex.CandidatesScorePositive | src/search.rs:425-452 | every candidate scores above zero, so the last filter drops none |
| SearchIndex.Score | src/search.rs:366-403 | the scored documents and their scores, read off the index, are those computed from the texts |
| SearchIndex.CollectHits | src/search.rs:404-453 | the hits read off the index are those of scoring every document |
| SearchIndex.Search | src/search.rs:355-474 | the hits are those of scoring every document, of different documents, as many as wanted; scores never rise along the result and equal scores are in the documents' order; nothing left out belongs before a returned hit |
| JournalStore.InvStep | src/runtime_integrity.rs:78-111 | every step keeps: live sessions hold their locks, and what a recovery read under the lock is still on disk |
| JournalStore.WrittenBy | src/runtime_integrity.rs:220-256 | a stored journal changes only by its live session, or by a recovery that closes the active journal of a dead one and keeps its events |
| JournalStore.HistoryKept | src/runtime_integrity.rs:155-171 | a finalized journal stays finalized, events are only added, a recovered journal never changes, the dead stay dead |
| JournalStore.RecoveredMeansDead | src/runtime_integrity.rs:231-239 | a recovered journal's session is never alive again |
| JournalStore.DeadIsRecovered | src/runtime_integrity.rs:220-256 | a recovery that meets the active journal of a dead session closes it with its events and frees the lock; a live session's is left alone (`LiveIsLeftAlone`) |
| JournalStore.SessionStores | src/runtime_integrity.rs:118-171 | what a live session observes and finalizes is what its next write stores |
| JournalStore.FirstReadCanBeStale | src/runtime_integrity.rs:228-240 | a run in which only the second read, under the lock, keeps a finalized journal from being recovered |
| JournalSession.CompareSnapshots | src/workspace_integrity.rs:138-206 | the delta holds exactly the additions, modifications and deletions outside the owned paths, each once |
| JournalSession.DeltaLeads | src/workspace_integrity.rs:138-206 | the delta leads from one snapshot to the other and back, and its kinds say which side is there |
| JournalSession.StatusNeverMilder | src/runtime_integrity.rs:155-171 | more events never turn a violation into changes or changes into clean |
| JournalSession.Session.Record | src/runtime_integrity.rs:129-147 | a new difference becomes one event, or is lost for good when the list is full |
| JournalSession.StatusExactIff | src/runtime_integrity.rs:132-171 | the status of the recorded events is never stricter than what was observed calls for, and milder exactly when a deletion was lost to the cap and none is recorded |
| JournalSession.Session.Observe | src/runtime_integrity.rs:118-153 | the list is full exactly when the new differences outnumber the room left in it, and then one of them is lost; otherwise every difference outside the owned paths has been observed |
| JournalSession.Session.Finalize | src/runtime_integrity.rs:155-171 | the status stored is the one the events demand and never becomes milder; it is the one everything observed calls for exactly when it is a violation or no deletion was lost |
| JournalSession.LoseViolation | src/runtime_integrity.rs:132-171 | a session that observes the deletion of a file, fails to finalize, and on the second attempt stores a status of changes only |
| RecordInstall.Folder.Install | src/private_state.rs:312-334 | at every step the old or the new content exists somewhere; success leaves exactly the new record; each failure leaves a stated one; replacing passes through a moment without the record |
| Buffers.TailBuffer.Push | src/process.rs:224-246 | the buffer is the last 512 KiB of everything pushed and the rest is counted |
| Buffers.PushAll | src/process.rs:224-254 | every chunking of a stream ends with the same tail and count |
| Buffers.BoundedLine | src/tracy_collector.rs:294-322 | the line, its truncation and what is left depend on the content alone, not on how it was delivered |
| Buffers.LineReturned | src/tracy_collector.rs:294-322 | a line within the limit is returned whole, a longer one is cut and marked or refused, and lines end with the first newline |
| OutputLog.TruncateLine | src/state.rs:99-113 | a long line keeps its longest whole-character prefix that leaves room for the mark |
| OutputLog.KeptMeaning | src/state.rs:99-113 | of a long line made of characters, as many whole ones are kept as leave room for the mark |
| OutputLog.BoundaryMeaning | src/state.rs:104-107 | a text can be cut exactly between its characters |
| OutputLog.OutputBuffer.Push | src/state.rs:67-87 | the log is the longest suffix of all lines within the entry and byte bounds, consecutively numbered, and ends with the line just pushed |
| OutputLog.LongestFitUnique | src/state.rs:70-83 | only one suffix of a history is the longest that fits |
| OutputLog.NearestBefore | src/state.rs:89-97 | the last entry not later than the offset, whatever the order of the offsets |

## Left out

- MCP transport, tool registration, schemas, startup configuration and JSON shaping: plumbing without an invariant.
- The Windows job object, process sampling and the contents of `/proc`: foreign calls; the guardian keeps only "kill the group", "reap" and a scan that looks at listed processes one at a time.
- The `dmi`, `png`, `fdeflate` and SHA-256 libraries are not part of this model. Digests stand for the bytes they are computed from, so equal digests mean equal content; decompression is a given function with a length bound.
- Rounding: similarity, BM25 scores and averages are exact reals; the logarithm is any increasing function that is zero at one.
- `metadata_differences`, `find_state`, `locator` and the texts of evidence: they only report.
- Zero-sized icon cells and sums beyond 32-bit pixel counts: decoding refuses them before comparison.
- The digest that names a cluster, and locators as anything but ordered values.
- DuplicateIndex.CandidatePairs: the order of buckets is arbitrary, so which pairs are kept when the cap is met is not stated.
- Errors of the pixel decoder are attributes of the file, the decoder's own limit being the same for all calls. What the external metadata parser yields is an attribute too; DmiCache.CacheMattersIff is about files whose parsed states are those the lines describe.
- In the transport, reading and parsing a reply line is one step with an arbitrary outcome; timeouts and cancellations may happen at any time and are not tied to a clock.
- In the transport, a write that has delivered the whole frame is taken to complete, as the writing future has no suspension point after its last byte.
- In the supervisor, a wait for the child, a kill and a containment call end arbitrarily; the exit code is not kept; a forced kill may also happen in the moment a new schedule arrives.
- Group members of the guardian do not leave the group by themselves, a command is launched once, the poll and timeout loops around setup and cleanup are only the steps they lead to, and the process list is read only after a termination request, as all callers do.
- BuildClosure.Capture: which of several reasons is reported last can differ within one file.
- Text lines are split at line feeds and trimmed of ASCII space; a file with other characters is refused before.
- Redaction works on characters, not bytes; `protected` for structured field names is not modelled.
- SearchIndex.Search: partial selection followed by a sort is modelled as a sort and a cut, which leaves the choice among equal hits open in both; text order is any total order.
- Search over ASCII has a separate path for case-insensitive matching; both paths are taken to agree.
- Building documents from an object tree and `canonicalize_procs`: they depend on an external syntax tree.
- JournalSession.CompareSnapshots: snapshots are maps whose order of visiting is arbitrary, so which of several new differences is lost at the event cap is not stated; resolving owned paths is an input.
- The size limits and path validation of records, and enumeration limits of recovery, are not modelled.
- Durability of renames without a directory sync is the file system's.
- The lossy text decoding when a buffer is finished.
- `push_output_line` reads the clock under a separate lock acquisition, so offsets are arbitrary inputs; the change counter is not kept.
- `src/spaceman/language.rs`, rendering, pagination, version ranges, manifests, workload merging and percentiles.
