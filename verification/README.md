# Verification model of the Degoonification engine

A Dafny model of the engine of a content-blocking daemon, with proofs about it. Three chains are
modelled from end to end:

* **Screen.** A captured frame is scaled into a planar tensor, a detector's proposals are un-mapped and
  filtered, a tracker turns the detections of one frame after another into stable boxes, and an overlay
  paints these boxes on the screen. `Letterboxing`, `Preprocessor`, `Detection`, `Geometry`, `BoxMerge`,
  `MergeTrees`, `TemporalTracker`, `Persistence`, `Histories`, `Anchors`, `AnchorScores`, `AnchorTracker`,
  `AnchorRuns`, `ShieldCoverage`, `ShieldFading`, `Raster`, `Overlay`, `Screen`. There are two trackers: the daemon feeds its overlay from the anchor tracker
  (`platform/linux/main.cpp:125`, `Screen.ShieldsPainted`), while the uniting tracker is reached only through the
  C interface, so `Screen.RecentDetectionsPainted` says what drawing its boxes with this overlay would paint.
* **Names.** A blocklist file is loaded into a label tree (with a Bloom filter beside it), DNS queries are
  parsed, looked up, and answered with a sinkhole record or forwarded. `Blocklist`, `DomainLabels`,
  `DomainRules`, `DomainTree`, `BloomFilter`, `DnsName`, `DnsPacket`, `DnsRoundTrip`, `DnsServer`.
* **Threads.** The worker thread publishes box lists, the main loop takes them over, pauses and shuts down.
  `HandOff` models this as a state machine over every interleaving of atomic steps.

`dafny verify dfyconfig.toml` checks the whole project.

## How the program is modelled

Objects that the program updates in place are classes with the same fields: the two trackers, the label
tree and its heap nodes, the Bloom filter, the DNS server, the preprocessor, the overlay and its two pixel
buffers. Each of their methods is proved against a function of the old state; the theorems are lemmas about
those functions, and about whole runs of calls. Values (boxes, frames, packets, rules) are datatypes.

* Every `float` is a `real`. Nothing below depends on rounding, overflow or NaN.
* Text is a sequence of octets and case folding is that of the C locale.
* A file is its content, or nothing when it cannot be opened; a datagram is a byte string; clock readings,
  captured frames, model outputs and the compositor's events are parameters.
* 64-bit hashes wrap around (`bv64`), and so do the probe positions and the Bloom filter's element count.
  Other counters are unbounded.
* The header of the uniting tracker speaks of a window of 300 ms and of 15 % padding, but its
  configuration defaults to 800 ms and 35 %. The model takes both from the configuration, as the code does,
  and the theorems hold for any window and any padding that is not negative.

What the DNS theorems take as given: a length octet from 64 to 191 is read as a plain length, although
section 4.1.4 of RFC 1035 reserves it; and a dot inside a label is not escaped. The name loop stops after 64
hops, labels and pointers together. `DnsName.NameIsMet` says for every byte string what it reads: the labels met
in these hops. `DnsName.NameExactIff` says which names it still reads right, name and offset: those of fewer hops,
and those that go through a pointer within the first 64 hops and only through pointers after them.
`DnsRoundTrip.ParsedRoundTrip` and the decisions of `DnsServer` are about the labels read. They ask that these can
be told apart in the text that the program joins them into: no label holds a dot, and for the decisions no
whitespace stands at the two ends of the name, where it would be trimmed.

Promises that do not hold, with what holds instead:

* The box in which the anchor tracker shows a detection need not cover it. A shield that follows a detection lags
  behind, and it covers it exactly when its padding makes up, on all four sides, for what is left of the distance
  (`Geometry.SmoothedPaddedIff`). `ShieldCoverage.DetectionShown` carries this over to the boxes that a frame
  returns; `ShieldCoverage.DetectionMissed` is a run that leaves part of a detection uncovered with the daemon's own
  values. From the second frame of a repeated detection on, without pixel data to follow a scroll by, nothing of it
  is left uncovered (`ShieldCoverage.RepeatedTwice`). The uniting tracker covers every recent detection.
* The rule counter is not the number of rules that the tree holds. It is an upper bound, and exact exactly
  when no broader rule was ever inserted after a narrower one (`DomainRules.CountExact`;
  `DomainRules.CountTooHigh` is a case).
* Not every name is read as its expansion: `DnsName.NameExactIff` is the condition, and
  `DnsName.LongNameCutShort` covers a family that fails it.
* Not every subdomain of a listed domain is sinkholed. The decision is taken on the labels read in 64 hops
  (`DnsServer.EndToEnd`), and it is the one for the whole name, for all lists, exactly when no label lies beyond
  these (`DnsServer.DecisionOnWire`; `DnsServer.LongNameForwarded` is a case). Only the first question is looked
  up (`DnsServer.FirstQuestionDecides`; `DnsServer.SecondQuestionForwarded` is a case).
* Not every parsed query gets its question back: the exact condition is `DnsRoundTrip.RoundTripIff`, and
  `DnsRoundTrip.DotsLost` is a query that fails it. The text of a name can come back when its labels do not:
  the labels do exactly when none holds a dot (`DnsRoundTrip.ResponseLabels`).
* The detector and the overlay do not read every frame alike: in RGBA and RGBx frames, and in those of unknown
  format, the mosaic shows the scene with red and blue exchanged (`Screen.ReadersAgreeIff`).
* The number of boxes that STATUS reports lingers after PAUSE has cleared the screen
  (`HandOff.CountReported`, `HandOff.CountLingers`).
* A detection that starts left of or above the frame keeps its full width or height after un-mapping, so its
  box reaches further than what is visible (`Detection.UnmapAxisCovers` says exactly when;
  `Detection.UnmapTooWide` is a case). One that lies wholly outside on that side, in the letterbox padding,
  still becomes a box at the frame's edge when it is long enough (`Detection.InvisibleIff`,
  `Detection.PhantomCandidate`).

## Model

| member | source | states |
|---|---|---|
| Geometry.IouRange | core/engine_shared/include/engine_shared/bounding_box.hpp:58-73 | IoU of sized boxes lies in [0, 1], is positive exactly when they meet in a proper rectangle, and is 1 exactly for two copies of one rectangle with an area |
| Geometry.IouSymmetric | core/engine_shared/include/engine_shared/bounding_box.hpp:58-73 | IoU does not depend on the order of the boxes |
| Geometry.IouIsRatio | core/engine_shared/include/engine_shared/bounding_box.hpp:58-73 | With a greatest common rectangle, IoU is its area over the area of the two boxes together, or 0 when they have no area |
| Geometry.NothingCommon | core/engine_shared/include/engine_shared/bounding_box.hpp:58-73 | Boxes without a common rectangle have IoU 0 |
| Geometry.OverlapHasArea | core/engine_shared/include/engine_shared/bounding_box.hpp:78-80 | Boxes that match at a non-negative threshold both have an area, whatever their signs; nothing degenerate ever matches |
| Geometry.UnitedIsHull | core/engine_shared/include/engine_shared/bounding_box.hpp:85-100 | The united box covers both and lies inside every box that covers both |
| Geometry.UnitedLabels | core/engine_shared/include/engine_shared/bounding_box.hpp:85-100 | The united box has the greater confidence with that box's class, the first one's on a tie, and the later time |
| Geometry.ExpandedGrows | core/engine_shared/include/engine_shared/bounding_box.hpp:35-53 | Padding a box of the unit square gives a box of the unit square that covers it, with the same confidence, class and time |
| Geometry.ExpandedMonotone | core/engine_shared/include/engine_shared/bounding_box.hpp:35-53 | The padded outer box covers the padded inner box |
| Geometry.SmoothingNeverLowersIou | platform/linux/inference/visual_anchor_tracker.hpp:130-138 | One smoothing step towards a matched detection never lowers their IoU, so they still match afterwards |
| Geometry.SmoothedInUnitSquare | platform/linux/inference/visual_anchor_tracker.hpp:132-136 | The average of two boxes of the unit square lies in the unit square |
| Geometry.SmoothedCoversIff | platform/linux/inference/visual_anchor_tracker.hpp:132-136 | Before padding, for every weight: the smoothed box covers the detection exactly when the weight is 1, or below 1 and the old box did, or above 1 and the detection covered the old box |
| Geometry.PaddedCoversIff | platform/linux/inference/visual_anchor_tracker.hpp:130-176 | A box that has come nearer to a detection by some factor covers it, once padded, exactly when on every side the padding makes up for that factor of the distance by which the detection stuck out before |
| Geometry.SmoothedPaddedIff | platform/linux/inference/visual_anchor_tracker.hpp:130-176 | The case of one smoothing step: factor 1 - alpha |
| Geometry.NearCovers | platform/linux/inference/visual_anchor_tracker.hpp:130-176 | A matched shield come nearer by a factor f with f (1 + p/2) <= p/2 covers the detection once padded by p, wherever the two lie |
| Geometry.SmoothedMisses | platform/linux/inference/visual_anchor_tracker.hpp:130-176 | A concrete shield and detection that match at the daemon's 0.15 and where the smoothed shield, padded by the daemon's 0.35, leaves part of the detection uncovered |
| BoxMerge.SwallowFrom | core/engine_shared/src/temporal_smoothing.cpp:92-102 | The inner loop over the consumed flags computes what meeting the remaining boxes one by one gives |
| BoxMerge.SweepOnce | core/engine_shared/src/temporal_smoothing.cpp:85-105 | One pass gives the swept list and reports a merge exactly when the list got shorter |
| BoxMerge.MergeOverlappingBoxes | core/engine_shared/src/temporal_smoothing.cpp:75-109 | The passes end, because each that merges shortens the list, with the fixpoint `Merged` |
| MergeTrees.MergedForest | core/engine_shared/src/temporal_smoothing.cpp:75-109 | Each returned box is built by uniting two at a time, and only two that overlap beyond the caller's threshold; every input box is used exactly once, by position; results come in the order of their earliest parts |
| BoxMerge.MergedSeparated | core/engine_shared/src/temporal_smoothing.cpp:84-108 | The result's boxes are pairwise at IoU at most the threshold |
| BoxMerge.MergedFixpoint | core/engine_shared/src/temporal_smoothing.cpp:84-108 | A list is left as it is exactly when it is already separated |
| BoxMerge.MergedIdempotent | core/engine_shared/src/temporal_smoothing.cpp:75-109 | Merging twice is merging once |
| BoxMerge.MergedPartition | core/engine_shared/src/temporal_smoothing.cpp:75-109 | The input splits into groups, counted with multiplicity, and each output box is the tight hull of its group with the group's greatest confidence, that member's class, and the latest time |
| BoxMerge.MergedCovers | core/engine_shared/src/temporal_smoothing.cpp:75-109 | Every input lies in an output, every output covers an input, and both lists are empty together |
| BoxMerge.MergedInUnitSquare | core/engine_shared/src/temporal_smoothing.cpp:75-109 | Merging boxes of the unit square stays in the unit square |
| TemporalTracker.TemporalSmoothingTracker.PurgeStale | core/engine_shared/src/temporal_smoothing.cpp:30-41 | Exactly the boxes from the future or as old as the window go, in place and in order |
| TemporalTracker.TemporalSmoothingTracker.IngestDetection | core/engine_shared/src/temporal_smoothing.cpp:47-61 | The first overlapping box takes the union, and only without one is a box appended |
| Persistence.IngestedAt | core/engine_shared/src/temporal_smoothing.cpp:47-56 | The first box a detection overlaps unites with it and takes its time, wherever it stands; nothing else changes |
| Persistence.IngestedNew | core/engine_shared/src/temporal_smoothing.cpp:57-61 | A detection that overlaps no tracked box is appended |
| Persistence.PurgedExactly | core/engine_shared/src/temporal_smoothing.cpp:30-41 | Exactly the boxes matched within the window and not in the future stay |
| TemporalTracker.TemporalSmoothingTracker.ProcessFrame | core/engine_shared/src/temporal_smoothing.cpp:24-73 | The new tracked list and the returned boxes as functions of the old list, the detections and the clock |
| TemporalTracker.Replay | core/engine_shared/src/temporal_smoothing.cpp:24-119 | A tracker object taken through any run of frames and resets is in the state the run's specification gives |
| TemporalTracker.RunGroups | core/engine_shared/src/temporal_smoothing.cpp:24-62 | In every run the tracked boxes are hulls of groups of seen detections, the groups hold every recent one, and each has a recent one |
| TemporalTracker.WholeRunCoverage | core/engine_shared/include/engine_shared/temporal_smoothing.hpp:20-23 | The documented Box_render formula over whole runs: every detection younger than the window lies, padding included, in a returned box; something is tracked and returned exactly when there is such a detection; returned boxes are separated and on the screen |
| Persistence.TrackedStays | core/engine_shared/src/temporal_smoothing.cpp:24-62 | Whatever a tracked box covers stays covered until the window after its last match, over any frames |
| Persistence.RedetectionRenews | core/engine_shared/src/temporal_smoothing.cpp:24-73 | A detection renews what it matches: the union with the first box it overlaps stays shown, padding included, until the window after that frame, however old that box's parts are |
| Persistence.FreshStart | core/engine_shared/src/temporal_smoothing.cpp:30-62 | When nothing seen is younger than the window, a frame starts from nothing |
| Persistence.ReturnedBuilt | core/engine_shared/src/temporal_smoothing.cpp:64-73 | The returned boxes are built from the tracked ones, each padded by the configured ratio and used once, at the configured threshold |
| TemporalTracker.TrackedAreHullsOfSeen | core/engine_shared/src/temporal_smoothing.cpp:43-62 | Nothing is tracked without cause: each tracked box is the tight hull of detections seen, at least one of them recent |
| Frames.PixelInBuffer | platform/linux/inference/visual_anchor_tracker.hpp:260-272 | The three bytes of any pixel of a frame lie inside its buffer |
| Frames.PixelRgbStored | platform/linux/inference/visual_anchor_tracker.hpp:260-272 | What the anchor code reads is the colour stored at the frame's own stride, three or four bytes a pixel, blue first in every format but RGB |
| Anchors.EvalAnchors | platform/linux/inference/visual_anchor_tracker.hpp:236-258 | The accumulating loop computes the mean colour error over the anchors inside the frame, or the mismatch value |
| AnchorScores.CountIs | platform/linux/inference/visual_anchor_tracker.hpp:248-255 | The count is the number of anchors that fall into the frame |
| AnchorScores.ScoreWithout | platform/linux/inference/visual_anchor_tracker.hpp:241-257 | Fewer than four of them, or no picture, score 999 |
| AnchorScores.ScoreBounds | platform/linux/inference/visual_anchor_tracker.hpp:246-257 | Bounds on each anchor's colour distance, a third of the sum over the channels, are bounds on the score; equal bounds give it exactly |
| AnchorScores.ScoreMean | platform/linux/inference/visual_anchor_tracker.hpp:246-257 | Two lists together score the mean of their scores, weighted by their anchors in the frame |
| AnchorScores.ScoreZeroIff | platform/linux/inference/visual_anchor_tracker.hpp:246-257 | With four anchors in the frame the score is 0 exactly when each of them shows its own colour |
| Anchors.SampleAnchors | platform/linux/inference/visual_anchor_tracker.hpp:195-234 | The two loops collect the anchors around the padded shield in order |
| AnchorScores.SampledExactly | platform/linux/inference/visual_anchor_tracker.hpp:208-233 | Anchors are taken exactly at the six points that divide each side of the pixel window into sevenths, 14 pixels outside, as far as these lie in the frame, and in the pixel's colour |
| AnchorScores.WindowEdges | platform/linux/inference/visual_anchor_tracker.hpp:201-206 | The window's edges are the pixels that the padded shield's edges fall into |
| Anchors.ShiftedScore | platform/linux/inference/visual_anchor_tracker.hpp:117-119 | Anchors moved by dy score at any further offset what the originals score at the sum of both |
| Anchors.SampledScoresZero | platform/linux/inference/visual_anchor_tracker.hpp:195-258 | Freshly sampled anchors, at least four, score 0 on their own frame |
| Anchors.ScoreNeedsFour | platform/linux/inference/visual_anchor_tracker.hpp:257-257 | A score below the mismatch value rests on at least four anchors inside the frame |
| Anchors.SampledCount | platform/linux/inference/visual_anchor_tracker.hpp:208-233 | Sampling finds exactly six anchors per side with the margin inside the frame, so four are found exactly when some side has that room |
| Anchors.RoomSmoothed | platform/linux/inference/visual_anchor_tracker.hpp:132-136 | Smoothing keeps the margin to a side of the screen that shield and detection both have |
| AnchorTracker.VisualAnchorTracker.EvaluateShield | platform/linux/inference/visual_anchor_tracker.hpp:83-123 | A shield is locked, moved with a scroll, or unlocked, in place, exactly as the scores say |
| AnchorTracker.VisualAnchorTracker.IngestDetection | platform/linux/inference/visual_anchor_tracker.hpp:127-158 | The first overlapping shield is smoothed and re-anchored, else a shield is appended |
| AnchorRuns.IngestedAt | platform/linux/inference/visual_anchor_tracker.hpp:127-145 | The first shield a detection overlaps is averaged with it, seen now and re-anchored where it then lies; nothing else changes |
| AnchorRuns.IngestedNew | platform/linux/inference/visual_anchor_tracker.hpp:147-157 | A detection that overlaps no shield starts one at its own place, not static, created and seen now |
| AnchorTracker.VisualAnchorTracker.PurgeExpired | platform/linux/inference/visual_anchor_tracker.hpp:160-168 | Exactly the shields from the future or at their static or dynamic age limit go |
| AnchorTracker.VisualAnchorTracker.ProcessFrame | platform/linux/inference/visual_anchor_tracker.hpp:74-178 | The new shields and the returned boxes as functions of the old shields, the frame, the detections and the clock |
| AnchorRuns.Replay | platform/linux/inference/visual_anchor_tracker.hpp:56-183 | A tracker object taken through any run of frames, resets and configuration changes is in the state the run's specification gives |
| AnchorRuns.ShieldInvariant | platform/linux/inference/visual_anchor_tracker.hpp:112-178 | After every frame of every run with a clock that never goes back: shields lie in the unit square, created <= last seen <= now, none is older than its limit, each padded shield lies in a returned box, and returned boxes are separated |
| AnchorRuns.RepeatedDetection | platform/linux/inference/visual_anchor_tracker.hpp:127-158 | Without pixel data a repeated detection keeps matching the first shield it overlaps, wherever that stands in the list, adds no shield and changes no other, never loses IoU, and each coordinate error is (1 - alpha)^n of the first |
| AnchorRuns.ScrolledLocks | platform/linux/inference/visual_anchor_tracker.hpp:100-122 | A shield that followed a scroll moved by the first of the ten offsets with the least score and is locked on the scrolled frame |
| AnchorRuns.ScrolledMoves | platform/linux/inference/visual_anchor_tracker.hpp:114-121 | Following a scroll moves box and anchors down by that many pixels, the box as far as the screen allows |
| AnchorRuns.FollowsScrollIff | platform/linux/inference/visual_anchor_tracker.hpp:89-122 | An unlocked shield with anchors follows a scroll exactly when one of the ten offsets scores below 8 and more than 8 better than standing still; otherwise it only stops being static |
| AnchorRuns.JustSampledLocks | platform/linux/inference/visual_anchor_tracker.hpp:139-157 | A shield just sampled is locked exactly when four anchors were found, that is, when some side has room for them |
| AnchorRuns.LockedStays | platform/linux/inference/visual_anchor_tracker.hpp:89-96 | On an unchanging screen a locked shield that nothing matches stays in place, static and tracked, for any number of frames |
| AnchorRuns.NothingFlickers | platform/linux/inference/visual_anchor_tracker.hpp:82-168 | On an unchanging screen where sampling keeps finding four anchors no shield is ever purged or unlocked, matched or not |
| AnchorRuns.RoomySamplesWell | platform/linux/inference/visual_anchor_tracker.hpp:127-158 | When on one side all shields and detections keep the sampling margin from the border, padding included, smoothing keeps it and every sampling of the run finds four anchors |
| AnchorRuns.RoomyNothingFlickers | platform/linux/inference/visual_anchor_tracker.hpp:82-168 | Under that condition on shields and detections alone no shield is ever purged or unlocked on an unchanging screen |
| ShieldFading.ChangedIsLost | platform/linux/inference/visual_anchor_tracker.hpp:89-122 | Colours off by the lock threshold where the anchors are and by 8 at every offset, or fewer than four anchors left in the frame, lose the lock and give no scroll |
| ShieldFading.Fades | platform/linux/inference/visual_anchor_tracker.hpp:82-168 | A shield that nothing matches and whose surroundings stay changed is unlocked at once, stays in place until the dynamic decay time after it was last seen and is then gone; all other shields fare as without it |
| ShieldFading.Lingers | platform/linux/inference/visual_anchor_tracker.hpp:160-168 | Without pixel data an unmatched shield keeps its lock and stays until the limit that goes with it |
| ShieldCoverage.ReturnedBuilt | platform/linux/inference/visual_anchor_tracker.hpp:170-177 | The returned boxes are built from the shields, each padded by the configured ratio and used once, at the configured threshold |
| ShieldCoverage.DetectionShown | platform/linux/inference/visual_anchor_tracker.hpp:74-178 | After every frame of every proper run, every detection of it is covered by a returned box when the shield it led to, padded, covers it, and when the padded shields need no merging exactly then or when another padded shield covers it; unless a later detection of the frame displaces that shield, it covers it exactly when it starts there or the padding makes up for the distance left |
| ShieldCoverage.RepeatedShown | platform/linux/inference/visual_anchor_tracker.hpp:127-178 | The same detection in n frames without pixel data is covered when the padding makes up for (1 - alpha)^n of the first distance, with no other shield exactly then, and always when that factor f has f (1 + p/2) <= p/2 |
| ShieldCoverage.RepeatedTwice | platform/linux/inference/visual_anchor_tracker.hpp:127-178 | So it is covered from the second such frame on with the shipped weight and any padding of at least 0.2 |
| ShieldCoverage.DetectionMissed | platform/linux/inference/visual_anchor_tracker.hpp:127-178 | A concrete run of two frames with the daemon's configuration after which no returned box covers the last detection |
| DomainLabels.SplitDomainLabels | core/engine_shared/src/radix_tree.cpp:16-42 | The trimming and splitting loops return the lower-case labels between the dots |
| DomainLabels.LabelsProper | core/engine_shared/src/radix_tree.cpp:28-40 | Labels are non-empty, free of dots and in lower case |
| Bytes.LowerForgetsCase | core/engine_shared/src/radix_tree.cpp:34-34 | Lower-casing makes two strings equal exactly when they differ in nothing but the case of the letters A to Z |
| DomainLabels.LabelsCaseInsensitive | core/engine_shared/src/radix_tree.cpp:34-34 | Names that differ only in case have the same labels |
| DomainLabels.TrailingIgnored | core/engine_shared/src/radix_tree.cpp:20-26 | A trailing dot, or any of the six blank characters, does not matter |
| DomainLabels.SubdomainLabels | core/engine_shared/src/radix_tree.cpp:28-40 | The labels of sub.domain are those of sub followed by those of domain |
| DomainLabels.LabelsOfJoin | core/engine_shared/src/radix_tree.cpp:16-42 | Joining labels and splitting again is the identity exactly when the joined name neither begins nor ends with whitespace |
| DomainRules.MinimalBlocks | core/engine_shared/src/radix_tree.cpp:51-54 | The minimal rules block exactly the names that all the rules block |
| DomainRules.MinimalRedundant | core/engine_shared/src/radix_tree.cpp:51-54 | A rule that is blocked already changes no minimal rule |
| DomainRules.MinimalBroader | core/engine_shared/src/radix_tree.cpp:63-67 | A rule that is not blocked becomes minimal and displaces exactly the rules it covers |
| DomainRules.CountExact | core/engine_shared/src/radix_tree.cpp:63-68 | Over any run, from any rules, the counter grows by at least as much as the number of minimal rules, and by just as much exactly when no rule of the run is broader than one before it |
| DomainRules.CountTooHigh | core/engine_shared/src/radix_tree.cpp:63-68 | A subdomain inserted before its parent is counted twice and held once |
| DomainTree.DomainRadixTree.Insert | core/engine_shared/src/radix_tree.cpp:44-69 | Adds the domain's labels to the rule set, keeps the tree faithful to it, and counts the rule exactly when it was not blocked |
| DomainTree.DomainRadixTree.InsertAll | core/engine_shared/src/radix_tree.cpp:44-69 | Any run of insertions into an index in any state: the rules gained, and the counter raised by `Increments` of the run |
| DomainTree.DomainRadixTree.Matches | core/engine_shared/src/radix_tree.cpp:71-88 | True exactly when some rule with a label is a label-wise suffix of the domain's labels |
| DomainTree.DomainRadixTree.ShapeFacts | core/engine_shared/src/radix_tree.cpp:63-68 | Terminal nodes are the minimal rules and are exactly the leaves; the bare root stands for no rule |
| DomainTree.SameRulesSameShape | core/engine_shared/src/radix_tree.cpp:44-69 | Two indexes with the same rules have the same nodes and terminals, whatever the order of insertion |
| DomainTree.DomainRadixTree.LoadFromFile | core/engine_shared/src/radix_tree.cpp:90-125 | Inserts the rule text of every line that has one, returns their number and raises the counter by `Increments` of them; 0 and no change without a file |
| DomainTree.DomainRadixTree.Clear | core/engine_shared/src/radix_tree.cpp:127-130 | Leaves an index without rules and with the counter at 0 |
| Blocklist.CompiledRules | core/blocklists/blocklist_compiler.py:55-58 | The rule texts of a compiled list are exactly its domains, in order |
| Blocklist.LineAhead | core/engine_shared/src/radix_tree.cpp:96-96 | A newline ends a line |
| Blocklist.LastLine | core/engine_shared/src/radix_tree.cpp:96-96 | The last line needs no newline |
| Blocklist.CommentIgnored | core/engine_shared/src/radix_tree.cpp:97-101 | What follows the first # of a line does not matter |
| Blocklist.BlankLineIff | core/engine_shared/src/radix_tree.cpp:104-105 | A line has no rule exactly when only blanks stand before any # |
| Blocklist.PlainLine | core/engine_shared/src/radix_tree.cpp:104-121 | A single word between blanks is a rule with that word's labels |
| Blocklist.HostsLine | core/engine_shared/src/radix_tree.cpp:107-121 | After a word beginning with 0.0.0.0 or 127.0.0.1 and blanks, the second word's labels are the rule |
| BloomFilter.HashFnv1a | core/engine_shared/src/bloom_filter.cpp:32-41 | The accumulator loop computes 64-bit FNV-1a over the lower-cased key |
| BloomFilter.HashMurmurMix | core/engine_shared/src/bloom_filter.cpp:43-52 | The accumulator loop computes the mixing hash over the lower-cased key |
| BloomFilter.HashesTellApart | core/engine_shared/src/bloom_filter.cpp:32-52 | Neither hash ever gives one value to two keys of which just one octet differs, case aside |
| BloomFilter.FnvVectors | core/engine_shared/src/bloom_filter.cpp:32-41 | The published FNV-1a values of the empty string and of "a" |
| BloomFilter.ProbeWalks | core/engine_shared/src/bloom_filter.cpp:60-61 | The i-th probe is the first hash and i times the second, wrapped at 64 bits, reduced to the number of bits |
| BloomFilter.ProbesIgnoreCase | core/engine_shared/src/bloom_filter.cpp:54-63 | Keys that differ only in case have the same probes |
| BloomFilter.BloomFilter.Add | core/engine_shared/src/bloom_filter.cpp:54-65 | The set bits become the old ones and the key's probes, no others |
| BloomFilter.BloomFilter.AddAll | core/engine_shared/src/bloom_filter.cpp:54-65 | After any run of additions the set bits are the old ones and all the keys' probes |
| BloomFilter.MarksAreUnion | core/engine_shared/src/bloom_filter.cpp:54-65 | The marks of a run are the union over its keys, so order and repetition do not matter |
| BloomFilter.BloomFilter.Contains | core/engine_shared/src/bloom_filter.cpp:67-80 | True exactly when there are bits and every probe of the key is set |
| BloomFilter.NoFalseNegatives | core/engine_shared/src/bloom_filter.cpp:67-80 | Every added key is found in any case, and nothing is found in an empty filter |
| BloomFilter.BloomFilter.Clear | core/engine_shared/src/bloom_filter.cpp:82-85 | No bit stays set |
| BloomFilter.BloomFilter.SaveToFile | core/engine_shared/src/bloom_filter.cpp:87-111 | Writes the header and the words, little-endian, as far as the device takes them; true exactly when the file could be created and everything fitted |
| BloomFilter.BloomFilter.LoadFromFile | core/engine_shared/src/bloom_filter.cpp:113-144 | Takes over all four fields of a good file and otherwise returns false and changes nothing, whatever the uninitialised magic buffer held |
| BloomFilter.SaveLoad | core/engine_shared/src/bloom_filter.cpp:87-144 | Loading saved bytes restores all four fields, even with more bytes behind them |
| BloomFilter.SavedOctets | core/engine_shared/src/bloom_filter.cpp:91-109 | The layout of a saved filter octet by octet: DGBF, version 1, four 64-bit numbers and the words, least octet first |
| BloomFilter.TruncatedRejected | core/engine_shared/src/bloom_filter.cpp:113-144 | No strict prefix of saved bytes loads |
| DnsName.ParseName | platform/linux/network/dns_packet.cpp:18-57 | The loop stays in bounds, ends after at most 64 hops on every byte string, and computes `NameAt` |
| DnsName.ExpandOctets | platform/linux/network/dns_packet.cpp:25-51 | Octet by octet: 0 ends a name, 1 to 191 count a label, a larger one is a 14-bit pointer |
| DnsName.NameExactIff | platform/linux/network/dns_packet.cpp:18-52 | Of all names with an RFC 1035 section 4.1.4 expansion, however many hops it needs, the loop reads exactly those right (expansion in lower case, offset past the terminator or first pointer) that have fewer than 64 hops, or go through a pointer in the first 64 and only through pointers after these |
| DnsName.NameIsExpansion | platform/linux/network/dns_packet.cpp:24-52 | So every name of at most 63 labels and pointers is read as exactly its expansion |
| DnsName.NameIsMet | platform/linux/network/dns_packet.cpp:18-52 | On every byte string the loop reads the labels met in 64 hops, in lower case with dots between, and fails exactly when one of them is cut off |
| DnsName.MetIsPrefix | platform/linux/network/dns_packet.cpp:24-52 | The labels met of a name with an expansion are a prefix of it, and all of it exactly when no label lies beyond the hops |
| DnsName.PointerFirst | platform/linux/network/dns_packet.cpp:31-40 | A name of 64 hops that begins with a pointer, as a chain of 64 pointers does, is still read right |
| DnsName.ExpandMore | platform/linux/network/dns_packet.cpp:24-52 | Allowing more hops changes neither an expansion nor the hops it takes, so the condition depends on the message alone |
| DnsName.LongNameCutShort | platform/linux/network/dns_packet.cpp:24-52 | A name whose first 64 labels stand in place is cut after the 64th, and the next field is read from its middle |
| DnsName.ReadNameReadable | platform/linux/network/dns_packet.cpp:42-51 | Every name read is in lower case with a dot in every stretch of 192 octets, and the offset never goes back |
| DnsPacket.Parse | platform/linux/network/dns_packet.cpp:8-67 | Accepts exactly the messages the specification parses, with their id, flags and questions |
| DnsPacket.ParsedIff | platform/linux/network/dns_packet.cpp:8-67 | A message parses to a packet exactly when its octets spell it: twelve octets of header with id, flags and the number of questions, then the questions one behind the other, each a name, two octets of type and two of class |
| DnsPacket.ParsedReadable | platform/linux/network/dns_packet.cpp:8-67 | A parsed packet has as many questions as its header announces, all with readable names |
| DnsPacket.EncodeLabels | platform/linux/network/dns_packet.cpp:99-110 | The loop writes each stretch between dots after its length octet |
| DnsPacket.BuildSinkholeResponse | platform/linux/network/dns_packet.cpp:69-160 | Returns the header, question and answer bytes of `Sinkhole`, or nothing without a question |
| DnsRoundTrip.ResponseHeader | platform/linux/network/dns_packet.cpp:75-95 | The response carries the query's id, flags 0x8180, one question, one answer and nothing else |
| DnsRoundTrip.HeaderOctets | platform/linux/network/dns_packet.cpp:75-95 | The twelve octets of that header |
| DnsRoundTrip.RoundTripIff | platform/linux/network/dns_packet.cpp:8-119 | Parsing the response gives back id, flags and exactly the first question if and only if its name is empty or 1 to 63 non-empty labels (or 64 with type and class 0) |
| DnsRoundTrip.DotsLost | platform/linux/network/dns_packet.cpp:8-119 | A concrete datagram that parses, with one label holding two dots, and whose question does not come back |
| DnsRoundTrip.ParsedRoundTrip | platform/linux/network/dns_packet.cpp:8-119 | A parsed query whose labels read hold no dot gets its first question back exactly when fewer than 64 labels were read, or type and class are 0 |
| DnsRoundTrip.ResponseLabels | platform/linux/network/dns_packet.cpp:99-111 | On the wire: the labels of the response's question are those read from the query, in lower case, exactly when none of them holds a dot |
| DnsRoundTrip.JoinDotted | platform/linux/network/dns_packet.cpp:99-110 | Joining 1 to k plain labels gives a name of 1 to k non-empty stretches |
| DnsRoundTrip.DottedPieces | platform/linux/network/dns_packet.cpp:99-110 | Every name of 1 to k non-empty stretches is the join of that many plain labels |
| DnsRoundTrip.AnswerRecord | platform/linux/network/dns_packet.cpp:119-157 | The answer is one well-formed record ending with the message: its pointer decodes to the question's name, class 1, 300 seconds, and an all-zero address of 4 octets, or of 16 and type 28 when 28 was asked |
| DnsServer.DnsServer.Init | platform/linux/network/dns_server.cpp:28-66 | Loads the file's rules into the tree only; the Bloom filter stays empty; fails when the listening socket cannot be bound, before an upstream socket is created |
| DnsServer.DnsServer.Handle | platform/linux/network/dns_server.cpp:112-154 | The outcome of a datagram is a function of the rules, its bytes and the upstream socket, without which a forwarded query is counted but not sent; exactly one counter beside the total moves |
| DnsServer.DnsServer.RunLoop | platform/linux/network/dns_server.cpp:94-156 | The outcomes and counters of a whole run of datagrams |
| DnsServer.CountersExact | platform/linux/network/dns_server.cpp:117-133 | Over any run total = blocked + forwarded + rejected, each the number of datagrams with that outcome |
| DnsServer.DecisionOnRead | platform/linux/network/dns_server.cpp:112-154 | For any rules: a query whose labels read are unambiguous is answered with its sinkhole response exactly when a rule ends these labels, and else is forwarded as it came |
| DnsServer.NoQueryRejected | platform/linux/network/dns_server.cpp:115-123 | What does not parse or asks nothing is dropped and counted, an empty datagram only dropped |
| DnsServer.SubdomainBlocked | core/engine_shared/src/radix_tree.cpp:71-88 | A listed domain and any text, a dot and the domain are blocked |
| DnsServer.LongerLabelFree | core/engine_shared/src/radix_tree.cpp:71-88 | A name that only ends in the same text as a listed one is not blocked |
| DnsServer.LongDatagramCut | platform/linux/network/dns_server.cpp:95-115 | Nothing beyond the first 2048 octets of a datagram matters |
| DnsServer.EndToEnd | platform/linux/network/dns_server.cpp:112-154 | From file and wire: such a query is sinkholed exactly when some rule text of the loaded file has labels that end the labels read of its first name |
| DnsServer.DecisionOnWire | platform/linux/network/dns_server.cpp:112-154 | The decision is the one for the whole name on the wire, whatever the rules, exactly when no label of it lies beyond the first 64 hops |
| DnsServer.LongNameForwarded | platform/linux/network/dns_server.cpp:112-154 | A concrete query for a name of 65 labels below a listed domain, which is forwarded |
| DnsServer.FirstQuestionDecides | platform/linux/network/dns_server.cpp:125-133 | Whether a parsed query is sinkholed depends on the rules and the name of its first question alone |
| DnsServer.SecondQuestionForwarded | platform/linux/network/dns_server.cpp:125-133 | A concrete message of two questions, the second one listed, which is forwarded whole |
| DnsServer.CompiledDecision | platform/linux/network/dns_server.cpp:28-154 | With a compiled list a query is sinkholed exactly when the labels read of its first name are those of a listed domain or of a subdomain of one |
| Letterboxing.WindowFits | platform/linux/inference/image_preprocessor.cpp:24-31 | The scaled window has at least one pixel, lies in the target, is centred to within one pixel and fills the target in one direction |
| Letterboxing.ScaledSideNearest | platform/linux/inference/image_preprocessor.cpp:28-29 | Each side of the window is the scaled side rounded to the nearest pixel, up from the middle, at least 1, and never above the target |
| Letterboxing.CellInRange | platform/linux/inference/image_preprocessor.cpp:39-87 | Every cell of the tensor lies in [0, 1] |
| Letterboxing.TensorCells | platform/linux/inference/image_preprocessor.cpp:39-87 | For any format and stride: the three planes hold red, green and blue of the sampled pixel over 255 inside the window, and 0.447 outside |
| Letterboxing.BlankTensor | platform/linux/inference/image_preprocessor.cpp:18-21 | Without pixels every cell is 0.447 |
| Letterboxing.EncodingIrrelevant | platform/linux/inference/image_preprocessor.cpp:47-86 | Two encodings of one image, RGB or BGRA, with any stride, give the same tensor |
| Letterboxing.SampleAligned | platform/linux/inference/image_preprocessor.cpp:52-63 | The source pixel sampled for a cell holds the point un-mapping assigns to it, exactly along a filled direction and to within half a window pixel otherwise |
| Letterboxing.MapUnmap | platform/linux/inference/onnx_detector.cpp:171-180 | Letterboxing a box and un-mapping it gives a unit-square box over all its visible points, and the box itself when it is wholly visible |
| Preprocessor.ImagePreprocessor.Preprocess | platform/linux/inference/image_preprocessor.cpp:10-90 | The loops leave in every cell what `CellOf` says, of which `Letterboxing.TensorCells` and `BlankTensor` say what that is, and return the window or the default information |
| Preprocessor.PlaceOfAt | platform/linux/inference/image_preprocessor.cpp:42-69 | The index of a plane, row and column lies in the tensor and belongs to that place alone |
| Detection.ArgMax | platform/linux/inference/onnx_detector.cpp:154-163 | The loop over the classes returns the best positive score and its class |
| Detection.BestIsFirstMaximum | platform/linux/inference/onnx_detector.cpp:154-163 | The class is the first with the greatest score, and none exactly when no score is positive |
| Detection.UnmapAxisCovers | platform/linux/inference/onnx_detector.cpp:171-180 | The clamped span starts at the first visible point, lies in the unit interval and covers every visible point; it is no longer than the visible part exactly when the true span does not start before 0, or reaches 1, or is empty |
| Detection.UnmapTooWide | platform/linux/inference/onnx_detector.cpp:177-180 | A concrete span cut off at 0 whose clamped length reaches twice as far as the span |
| Detection.PhantomIff | platform/linux/inference/onnx_detector.cpp:177-182 | A span is long enough for a candidate exactly when it is so itself and starts early enough, and although nothing of it is visible exactly when it ends at or before 0 |
| Detection.InvisibleIff | platform/linux/inference/onnx_detector.cpp:153-194 | A proposal becomes a candidate exactly when it is confident, of an explicit class and both spans are kept, and the candidate has no visible area exactly when one of its two spans lies before 0 |
| Detection.PhantomCandidate | platform/linux/inference/onnx_detector.cpp:153-194 | A concrete proposal in the padding left of the frame that becomes a candidate |
| Detection.CandidatesInUnitSquare | platform/linux/inference/onnx_detector.cpp:153-194 | Every candidate lies in the unit square, is confident enough and has an explicit class |
| Detection.CandidateRight | platform/linux/inference/onnx_detector.cpp:153-194 | A candidate is its own proposal's rectangle: on each axis it begins where the true span does and is as long as it within the frame; its class is the first of the ten explicit ones with the greatest score, its confidence that score |
| Detection.CollectCandidates | platform/linux/inference/onnx_detector.cpp:153-194 | The loop over the proposals collects their candidates in order |
| Detection.Suppress | platform/linux/inference/onnx_detector.cpp:201-216 | The flag-driven loops return the boxes that no earlier kept box overlaps beyond the threshold |
| Detection.SurvivorIndices | platform/linux/inference/onnx_detector.cpp:204-214 | The result is the subsequence of the candidates at exactly the kept positions |
| Detection.SuppressionSound | platform/linux/inference/onnx_detector.cpp:196-216 | On the sorted list survivors are pairwise at IoU at most the threshold, and every dropped box overlaps a survivor of at least its confidence |
| Detection.Detect | platform/linux/inference/onnx_detector.cpp:144-216 | The result is the suppression of some descending order of the candidates; each returned box lies on the screen and is some proposal's own rectangle with its class and score |
| Raster.TintChannels | platform/linux/overlay/wayland_overlay.cpp:280-284 | No channel of a mosaic pixel overflows into another, and its alpha is 0xFF |
| Raster.ClearIffUncovered | platform/linux/overlay/wayland_overlay.cpp:244-304 | A pixel is clear exactly when no box's integer rectangle holds it |
| Raster.TopmostDecides | platform/linux/overlay/wayland_overlay.cpp:252-303 | A covered pixel has the colour of the last box over it |
| Raster.MosaicPixel | platform/linux/overlay/wayland_overlay.cpp:258-292 | Under a topmost box with a scene a pixel shows three quarters of the colour stored at the middle of its block and one quarter of the tint, blocks of at least 8 pixels starting at the box's corner |
| Raster.PlainPixel | platform/linux/overlay/wayland_overlay.cpp:293-301 | Without mosaic or scene it shows the fallback colour |
| Raster.CoveredCells | platform/linux/overlay/wayland_overlay.cpp:253-256 | Exactly the pixels are painted whose cell ends behind the near edges and not behind the far ones; so pixels inside are painted, and painted ones touch their box |
| Raster.NearRects | platform/linux/overlay/wayland_overlay.cpp:217-239 | Boxes that count as unchanged have near rectangles: within 0.003 of the side plus a pixel, twice that at the far edges |
| Overlay.FillBlock | platform/linux/overlay/wayland_overlay.cpp:286-301 | The row and column loops set exactly the rectangle's pixels |
| Overlay.PaintBlockRow | platform/linux/overlay/wayland_overlay.cpp:268-292 | The stepped loop paints one row of mosaic blocks, the cut-off last block included |
| Overlay.PaintBox | platform/linux/overlay/wayland_overlay.cpp:252-303 | A box's rectangle gets its mosaic or the fallback colour, every other pixel stays |
| Overlay.BoxesDiffer | platform/linux/overlay/wayland_overlay.cpp:217-228 | True exactly when the lengths differ or some component differs by more than 0.003 |
| Overlay.PictureAt | platform/linux/overlay/wayland_overlay.cpp:286-291 | Pixel (x, y) of the picture is at y * width + x |
| Overlay.WaylandOverlay.Redraw | platform/linux/overlay/wayland_overlay.cpp:244-304 | A cleared and repainted buffer is the picture of the boxes, pixel by pixel |
| Overlay.WaylandOverlay.RenderBoxes | platform/linux/overlay/wayland_overlay.cpp:230-312 | The attached buffer always is the picture of the last rendered boxes; these stay within 0.003 of every request on a configured surface; suppressed calls change nothing; the buffer on the screen is never written |
| Screen.RecentDetectionsPainted | platform/linux/overlay/wayland_overlay.cpp:252-303 | Rendering the uniting tracker's boxes paints every pixel inside the padded rectangle of every recent detection, over any run |
| Screen.ShieldsPainted | platform/linux/overlay/wayland_overlay.cpp:252-303 | Rendering the anchor tracker's boxes paints every pixel inside every padded shield, over any run |
| Screen.ReadersAgreeIff | platform/linux/overlay/wayland_overlay.cpp:258-279 | Detector and overlay take a pixel for the same colour exactly in RGB, BGRA and BGRx frames or when red equals blue; else red and blue are exchanged |
| HandOff.StepInv | platform/linux/main.cpp:174-337 | Every step of either thread keeps the invariant that ties counter, published lists, snapshot, screen and pause flag together |
| HandOff.HandOffSafe | platform/linux/main.cpp:185-325 | At every point of every interleaving: the snapshot is at least as new as the processed number; once caught up it is the newest list; the screen shows nothing or a published list; paused, shut down or without a model it shows nothing |
| HandOff.NeverBack | platform/linux/main.cpp:302-313 | Main's snapshot and processed number never go back, and no published list is lost from the record |
| HandOff.PublishedAreTracked | platform/linux/main.cpp:183-206 | In every run the published lists are exactly those the tracker delivered, unchanged and in order, and an empty one for each idle round |
| HandOff.PausedStaysBlank | platform/linux/main.cpp:264-273 | From a cleared screen under PAUSE nothing appears before RESUME, whatever the worker publishes |
| HandOff.PausedPublishesNothing | platform/linux/main.cpp:174-206 | Once at rest under PAUSE, or without a model, the worker publishes only empty lists until RESUME |
| HandOff.RenderFresh | platform/linux/main.cpp:302-318 | A rendering while not paused shows a list at least as new as everything counted when main read the counter |
| HandOff.NextTurnShows | platform/linux/main.cpp:302-318 | Main's next turn shows the list published last and reports its size, when something was counted since its last one; under PAUSE a RESUME is enough |
| HandOff.CountReported | platform/linux/main.cpp:264-269 | In every run the reported box count is right exactly when nothing has cleared the screen since the last rendering of a new list, or that rendering showed no box |
| HandOff.CountLingers | platform/linux/main.cpp:264-269 | A concrete run in which STATUS reports one box on a cleared screen |
| HandOff.NoDeadlock | platform/linux/main.cpp:182-337 | Until main is done it can move unless it waits for the box mutex, the tracker's mutex or the worker's exit, and then the worker can move |
| HandOff.StopIsFinal | platform/linux/main.cpp:290-332 | STOP or a signal is final, and main's next turn asks the worker to exit |
| HandOff.MutexReleased | platform/linux/main.cpp:183-206 | Whatever step the worker takes next ends main's wait for a mutex |
| HandOff.JoinEnds | platform/linux/main.cpp:330-334 | Once asked to stop the worker exits after at most six of its own steps, and nothing main does delays it |

## Left out

- PipeWire and screencopy capture, Wayland protocol glue, ONNX sessions, sockets, polling, process start-up: input and output; only the frame, tensor, datagram or lines they hand over appear.
- The upstream reply to a forwarded query: the outcome ends with the datagram sent on.
- The Windows overlay, the Android application, the Flutter client and the browser extension: separate front ends.
- Command line, text interface, streak arithmetic, watchdog and anti-tamper: short branches and system calls with only easy claims.
- The C interface: it passes a prefix of the tracker's result on.
- Bloom filter sizing by logarithms and false-positive rates: the constructor takes the two resulting numbers and keeps what follows from them (at least one hash, bits = 64 times words).
- BloomFilter.BloomFilter.LoadFromFile: a file whose header announces more bits than it has words is taken over as it is, and `Add` and `Contains` then require `Sized()`, because the program would index beyond the array.
- DnsPacket.Parse: what a rejected message leaves behind in the output packet is not modelled; every caller ignores it.
- Detection.SortByConfidence: an insertion sort stands for the library's sort; only that the result is a descending permutation is used.
- Detection.Detect: an inference failure, which returns an empty list, and a tensor without three dimensions are not modelled.
- Preprocessor.ImagePreprocessor.Preprocess: returns a fresh array where the program resizes the caller's vector; row offsets beyond 32 bits are not modelled.
- Overlay.WaylandOverlay.RenderBoxes: requires edges that are not negative, since converting a negative number to an unsigned one is undefined; a surface resized after its buffers were allocated is not modelled.
- Overlay.WaylandOverlay.Redraw: the pixel word is put together by adding the shifted channels; `Raster.TintChannels` shows that they do not overlap.
- Configuration changes in the middle of a frame, moved-from objects and allocation failure.
- Thread safety of the trackers themselves: they hold their own mutex for each call; the hand-off has this mutex, but not the shields behind it.
- HandOff.HandOffSafe: the pause flag is read and written as if it were atomic, although the program declares it as a plain variable; the tracker's result is any list; and the frame that goes with the boxes is left out, because it is copied shallowly and its pixels may be newer than the boxes. The overlay is taken to be configured throughout, and then draws each request exactly, which `Overlay.WaylandOverlay.RenderBoxes` promises for an empty list and for a list with a scene.
