# mati, verified

mati gates the file accesses of AI agents with a store of knowledge about a repository. This
project models the parts of it that carry real algorithms and one concurrent protocol, and
proves what they promise. `dafny verify dfyconfig.toml` checks everything.

Each module follows one component.

| module | component |
|---|---|
| `UnionFind`, `CoChangeGraph`, `Clusters`, `ClusterTheorems` | co-change clusters (`src/analysis/clusters.rs`) |
| `Shutdown`, `ServeLoop` | the daemon's accept loop, drain and shutdown (`src/cli/daemon.rs`, `src/mcp/server.rs`) |
| `HistorySpec`, `HistoryTally`, `GitHistory`, `HistoryTheorems`, `HistoryLaws` | the git history miner (`src/analysis/git.rs`) |
| `ImportGraph`, `BlastRadius`, `Propagation` | the import graph, blast radius and cascading staleness |
| `Walker` | the parallel directory walker (`src/analysis/walker.rs`) |
| `JsonText`, `Policy`, `HookDecide`, `HookLaws` | signed policy bundles and the pre-tool hook |
| `Reparse`, `ReparseLaws`, `Deps`, `GotchaKeys` | incremental reparse, dependency merging, the key search |
| `Common`, `Ordering` | sequences, sets, numbering, sorting |

How it is laid out. Code that updates arrays, maps or a buffer in place is a method with loops
(a class for the store and for the file visitor), proved against a declarative specification:
`IsIndex` says what a cluster index is without mentioning union-find, `IsReport` what a mined
history is without mentioning interning, `Radius` and `WithinSteps` what lies within a number of
imports without mentioning queues. The theorems are then about these specifications, so they
hold of whatever the code returns. The functions that code and specification share, such as the
weights of a change or the test for a revert, are fixed once more from outside, with literal
numbers and texts, by the lemmas whose names end in `Means` or `Table` and by worked inputs. The daemon and the walker are transition systems; a run is any
sequence of enabled steps and every theorem quantifies over all of them.

What the code does differently from its own description:

- Reported co-change pairs are documented as `a < b`. They are ordered by first appearance in the
  walk; `HistoryTheorems.PairDirection` says exactly when the documented order holds and
  `HistoryTheorems.ReversedPairExample` gives a history where it does not.
- The batch blast radius counts a file as its own importer when it lies on a short import cycle,
  the single-file version never does. `BlastRadius.VersionsAgree` proves they agree if and only if
  there is no such cycle, and by how much they differ otherwise.
- A fully drained join set does not give the daemon the store for itself. `mem_get` and
  `mem_bootstrap` leave a best-effort write behind in a task outside the join set, with its own
  clone of the graph. `ServeLoop.CloseIsExclusive` proves that clean-up closes the store if and
  only if no handler and no such write holds the graph, and `ServeLoop.FlushedUnderWriter` is the
  run of one request and one termination signal that ends with a flush under a running writer.
- The source count of propagated staleness counts import paths. `Propagation.SourceCountIsPaths`
  proves it equals the number of contributing records if and only if none reaches the file along
  two paths.
- A second reparse of a deleted file writes again. `Reparse.SecondReparse` proves that a second
  reparse is silent if and only if the file is on disk or was never recorded.
- No reparse ever clears a tombstone: a recorded file that was found gone once stays tombstoned
  after every later series of reparses, whether it comes back changed or not
  (`Reparse.TombstoneIsFinal`, `Reparse.DeletedStaysTombstoned`).
- The bounds on one reparse have an exception each. Staleness rises by at most 0.4 unless a
  recorded file with staleness below 0.6 is found gone (`Reparse.StalenessRises`). The history of
  signals keeps its cap of twenty unless a full record's file is found gone (`Reparse.SignalCap`),
  and then it grows without end (`Reparse.DeletionsPileUp`).
- A density above 1 is possible. `ClusterTheorems.DensityAtMostOneIff` proves it is at most 1 if
  and only if no more pairs are wasted, on files listed both ways and on files paired with
  themselves, than there are two members without a pair; `ClusterTheorems.DensityTwoExamples`
  gives pair lists with density 2. A mined history never lists a pair both ways
  (`HistoryTheorems.MinedDensity`), and pairs no file with itself if no commit lists a file more
  than twice (`HistoryTheorems.MinedClustersAreDense`).
- A consult mandate still denies when the store failed, although evaluation alone then lets the
  access pass (`HookDecide.SiteDenies`); patches are not subject to the mandate at all
  (`HookDecide.ApplyPatchGate`).
- A deny does not always block. The hook's escaper produces invalid JSON for texts with control
  characters other than newline, carriage return and tab, and for no others
  (`HookDecide.EscapedTextReadsBack`). Both deny reasons quote the path, so on the Claude gates a
  file with such a character in its name is denied and audited, but the answer cannot be read and
  the access goes ahead (`HookDecide.DenyBlocksIffPathClean`, `HookDecide.UnreadableDeny`).
- The walk is meant to be repeatable. It is if and only if relative paths tell accepted files
  apart (`Walker.RepeatableIff`); a name with a backslash is enough to break it
  (`Walker.BackslashExample`).
- An edit that leaves a file's structure alone is not stored: content hash, line count and token
  cost stay those of the last run that rewrote the structure (`Reparse.PrintsOfLastRewrite`,
  `Reparse.HashLags`).
- Idle shutdown can fire on a connection that was accepted between the two loads of the idle check
  and whose peer is still being checked (`ServeLoop.FiresOnAccepted`). At the moment of the load
  that is the only accepted connection it can miss (`ServeLoop.QuietMisses`).
- A dependency key of the old form loses part of its name if and only if the name starts with an
  ecosystem and a colon (`Deps.LegacyKey`).

## Model

| member | source | states |
|---|---|---|
| `UnionFind.Find` | src/analysis/clusters.rs:87-92 | In every ranked forest: returns the representative, redirects exactly the nodes of the walked path to it, changes no representative, and recurses once per link, at most log2(n) + 1 deep when the forest is balanced, which it keeps. |
| `UnionFind.Union` | src/analysis/clusters.rs:94-108 | Two nodes are together afterwards exactly when they were before or are linked by the joined pair; ranks still increase toward the root and every tree still has at least 2^rank nodes. |
| `UnionFind.LogarithmicDepth` | src/analysis/clusters.rs:84-108 | In every balanced forest, and so in every reachable one, no node lies deeper than log2 of the number of nodes. |
| `UnionFind.LinkedRankFits` | src/analysis/clusters.rs:100-107 | Raising the rank on a tie is paid for: the two trees together hold 2^rank nodes, so ranks stay below the number of nodes. |
| `UnionFind.LinkBalanced` | src/analysis/clusters.rs:100-107 | Hanging the lower-ranked root below the other keeps every tree exponentially large in its rank. |
| `Clusters.JoinRepresents` | src/analysis/clusters.rs:110-114 | If representatives equal connectivity before a union, they equal connectivity with one more pair after it. |
| `Clusters.NumberNodes` | src/analysis/clusters.rs:71-81 | Numbers exactly the endpoints of strong pairs, one to one, in whatever order the set yields. |
| `Clusters.Unite` | src/analysis/clusters.rs:84-114 | After all strong pairs, two nodes share a representative exactly when a chain of strong pairs connects them; the forest is balanced. |
| `Clusters.Group` | src/analysis/clusters.rs:116-121 | Grouping by `find`, which keeps rewriting links while it runs, yields for each representative exactly its nodes and keeps the forest balanced. |
| `Clusters.CountEdges` | src/analysis/clusters.rs:138-147 | The edge count and the degree map are those of the subgraph inside the members. |
| `Clusters.PickCentroid` | src/analysis/clusters.rs:157-162 | The centroid is the last member, in sorted order, of maximal degree. |
| `Clusters.BuildCluster` | src/analysis/clusters.rs:133-176 | A component becomes a cluster with the same members, sorted, and with its density and centroid. |
| `Clusters.BuildAll` | src/analysis/clusters.rs:129-177 | Exactly the components of at least two files become clusters, pairwise disjoint. |
| `Clusters.Compute` | src/analysis/clusters.rs:55-214 | The index holds exactly the connected components of at least two files over pairs with count at least 5: disjoint, covering exactly the files with a strong pair to another file, largest first, with correct totals. |
| `ClusterTheorems.ShareClusterIffConnected` | src/analysis/clusters.rs:110-121 | In every correct index, two different files share a cluster exactly when a chain of strong pairs connects them. |
| `ClusterTheorems.IndexIsCanonical` | src/analysis/clusters.rs:78-180 | Any two correct indexes over the same strong pairs hold the same clusters, densities and centroids: node numbering and pair order do not matter. |
| `ClusterTheorems.ClusterShape` | src/analysis/clusters.rs:138-162 | A cluster of n files has at least n-1 pairs, its degrees add up to twice the pairs, and no member has a higher degree than the centroid. |
| `ClusterTheorems.CohesionMeans` | src/analysis/clusters.rs:149-155 | For every cluster of n files with k strong pairs inside, density times n(n-1) is 2k. |
| `ClusterTheorems.StrongMeans` | src/analysis/clusters.rs:57-60 | The strong pairs are those listed with a count of at least 5. |
| `ClusterTheorems.LargestFirst` | src/analysis/clusters.rs:179-180 | No cluster comes before a larger one. |
| `ClusterTheorems.DensityAtMostOneIff` | src/analysis/clusters.rs:138-155 | Every cluster has a density of at least 2/n, and at most 1 exactly when its pairs listed both ways and its self-pairs are no more than its two-member choices without a pair. |
| `ClusterTheorems.CohesionRange` | src/analysis/clusters.rs:149-155 | With distinct endpoints and one orientation per pair, density lies in [2/n, 1]. |
| `ClusterTheorems.DensityTwo` | src/analysis/clusters.rs:123-155 | A pair together with its reverse, or with a self-pair of one of its files, gives a cluster of density 2. |
| `ClusterTheorems.DensityTwoExamples` | src/analysis/clusters.rs:123-155 | The pair lists (a,b),(b,a) and (a,b),(a,a) with count 5 each give density 2. |
| `ClusterTheorems.ClusterForFindsComponent` | src/analysis/clusters.rs:216-221 | A lookup succeeds exactly for clustered files, and two files find the same cluster exactly when they are connected. |
| `CoChangeGraph.SpanningEdges` | src/analysis/clusters.rs:138-155 | A connected component of n nodes holds at least n-1 pairs. |
| `CoChangeGraph.PairCount` | src/analysis/clusters.rs:138-155 | Exactly n(n-1)/2 pairs, plus the two-node choices listed both ways and the self-pairs, minus the two-node choices without a pair. |
| `CoChangeGraph.SimpleEdges` | src/analysis/clusters.rs:149-155 | n nodes hold at most n(n-1)/2 pairs when endpoints differ and no pair is listed both ways. |
| `CoChangeGraph.Handshake` | src/analysis/clusters.rs:138-147 | Degrees over a node list holding every endpoint add up to twice the pairs. |
| `Shutdown.StepKeepsInv` | src/mcp/server.rs:468-508 | Every step of every waiter and signaller keeps: a parked waiter that missed the flag has a notification coming, and has it once a signal call has returned. |
| `Shutdown.BroadcastReaches` | src/mcp/server.rs:478-481 | A broadcast notifies exactly the wait calls that have registered and not returned. |
| `Shutdown.NoLostWakeup` | src/mcp/server.rs:468-508 | Under every interleaving, no wait returns before a signal, and once some signal call has returned, even while others are half done, every wait has returned or can go on. |
| `ServeLoop.StepKeepsInv` | src/cli/daemon.rs:716-843 | Every step of the loop, a handler, a deferred write, the signaller, the idle task or the main task keeps permits, counter, ownership and shutdown bookkeeping. |
| `ServeLoop.PermitsAndCounter` | src/cli/daemon.rs:716-803 | In every reachable state free permits, the loop's permit and the handlers' permits add up to the limit; the active counter equals the armed guards; at most the limit run at once. |
| `ServeLoop.IdleNeedsQuiet` | src/cli/daemon.rs:500-527 | If idle shutdown fires in a run, some load of the counter in that run saw no handler and no hand-over together with a stale accept time. |
| `ServeLoop.QuietMisses` | src/cli/daemon.rs:500-527 | Of the accepted connections such a load can only have missed the one whose peer is still being checked. |
| `ServeLoop.FiresOnAccepted` | src/cli/daemon.rs:769-791 | A reachable run in which idle shutdown fires on a connection that was just accepted and is being checked. |
| `ServeLoop.NoSpawnAfterExit` | src/cli/daemon.rs:732-843 | Once the accept loop has left, for whatever reason, no run ever spawns another handler. |
| `ServeLoop.AtMostOneMoreSpawn` | src/cli/daemon.rs:745-767 | After the signal, every run spawns at most one more handler, namely for a connection already being taken. |
| `ServeLoop.StoppingDecreases` | src/cli/daemon.rs:805-843 | Every step of a stopping daemon other than the clock and the idle check lowers a measure. |
| `ServeLoop.ShutdownIsBounded` | src/cli/daemon.rs:805-843 | So every run of a stopping daemon has a bounded number of working steps. |
| `ServeLoop.NeverStuck` | src/cli/daemon.rs:834-842 | A stopping daemon that has not finished can always take a step of its own, without any OS signal. |
| `ServeLoop.ShutdownCompletes` | src/cli/daemon.rs:564-675 | From every reachable stopping state the daemon's own steps reach a closed or flushed store. |
| `ServeLoop.CloseIsExclusive` | src/cli/daemon.rs:653-675 | The store is closed only when no handler and no deferred write holds the graph; at clean-up it is closed exactly then and flushed exactly otherwise; after a full drain that means exactly when no deferred write is left. |
| `ServeLoop.FlushedUnderWriter` | src/mcp/handlers.rs:1405-1417 | One answered request and a termination signal can end with every handler joined, the store only flushed, and a writer still running. |
| `ServeLoop.SelfExitMeansPanic` | src/cli/daemon.rs:732-743 | The reason "serve_loop_exit" is recorded only after a handler panic was reaped; a reaped panic means a panicked handler and a loop that has left; a loop that left without one had been told to; its return has set the flag. |
| `ServeLoop.PanicEndsService` | src/cli/daemon.rs:736-743 | In every reachable state in which a panicked handler has been taken out of the join set, the accept loop has left, and no run from there spawns a handler. |
| `ServeLoop.ReasonsAreTrue` | src/cli/daemon.rs:592-640 | The reason "idle_timeout" is recorded only after the idle check has fired; handlers are cancelled only after the loop has left. |
| `ServeLoop.FiresIff` | src/cli/daemon.rs:509-527 | The idle check fires exactly when it loaded a counter of zero and an accept time at least 1800 seconds old. |
| `HistorySpec.FreqCountsCommits` | src/analysis/git.rs:258-270 | A frequency is the number of processed commits touching the file if and only if none lists it twice; it is never less. |
| `HistorySpec.PairFreqIsJointIff` | src/analysis/git.rs:272-281 | The total of two files is the number of their joint commits of 2 to 50 walked files if and only if none of those lists either twice; it is never less. |
| `HistorySpec.PairFreqCountsCommits` | src/analysis/git.rs:272-281 | If no commit lists a file twice, a pair's total is at most either frequency, and no file pairs with itself. |
| `HistorySpec.RevertsWithinFreq` | src/analysis/git.rs:283-292 | A file is never reverted more often than it is touched. |
| `HistorySpec.SeenIff` | src/analysis/git.rs:258-264 | Exactly the files touched in the window have a frequency and a last author. |
| `HistoryTally.Intern` | src/analysis/git.rs:140-149 | Interning reuses the number a path has, otherwise appends it, and stays one to one. |
| `HistoryTally.CollectFiles` | src/analysis/git.rs:216-256 | The collected numbers stand for exactly the walked files of the diff, in order, deletions by old path, others by new path; renames into walked files are noted. |
| `HistoryTally.CountFiles` | src/analysis/git.rs:258-270 | Every frequency and author count grows by the file's occurrences, and each file's author counts still add up to its frequency. |
| `HistoryTally.NoteAuthor` | src/analysis/git.rs:262-264 | Files without an author get this one, all others keep theirs. |
| `HistoryTally.CountRow` | src/analysis/git.rs:275-278 | One row of the pair loop adds one for every later entry, under the key of the two entries. |
| `HistoryTally.CountPairs` | src/analysis/git.rs:272-281 | The double loop adds one for every pair of positions holding the two numbers in that order. |
| `HistoryTally.CountAll` | src/analysis/git.rs:283-292 | Every listed file's revert count grows by its occurrences. |
| `HistoryTally.SortedPairs` | src/analysis/git.rs:274-279 | Because numbers are sorted first, each unordered pair is counted under one key only, with its full joint count. |
| `GitHistory.AddCommit` | src/analysis/git.rs:216-294 | Processing one commit keeps all tables equal to the totals over the processed window. |
| `GitHistory.Walk` | src/analysis/git.rs:151-295 | The loop ends with the totals over the first 5000 readable non-merge commits. |
| `GitHistory.ByNameLosesNothing` | src/analysis/git.rs:297-307 | Converting numbers back to paths loses no entry. |
| `GitHistory.FilterPairs` | src/analysis/git.rs:312-332 | Exactly the pair counters that pass the ratio filter are translated, each once. |
| `GitHistory.ReportPairs` | src/analysis/git.rs:312-338 | The pair list holds exactly the correlated pairs of the window, sorted by count, then by path. |
| `GitHistory.Hotspots` | src/analysis/git.rs:368-389 | The hotspots are the top tenth by frequency, rounded up, in order, and no other file comes before any of them. |
| `GitHistory.MineHistory` | src/analysis/git.rs:91-359 | For every history: frequencies, last authors (the first processed commit touching the file), revert counts, author counts that add up to the frequency, pairs, renames and hotspots are all exact over the first 5000 readable non-merge commits. |
| `HistoryLaws.TouchedListings` | src/analysis/git.rs:221-256 | A commit counts a file as often as its deltas list it: deletions by the old path, other changes by the new one, with slashes for backslashes, and walked files only. |
| `HistoryLaws.ReportedTotals` | src/analysis/git.rs:258-292 | Frequencies, revert counts and author counts are the listings over all commits of the window, over those whose message starts with "Revert ", and over those of each committer, an unreadable name being "unknown". |
| `HistoryLaws.LastAuthorMeans` | src/analysis/git.rs:258-264 | The last author is the committer of the first commit of the window that lists the file. |
| `HistoryLaws.RevertExample` | src/analysis/git.rs:284-291 | Of "Revert bug" and "Fix bug" on one file the first alone counts as a revert. |
| `HistoryLaws.RenamesMean` | src/analysis/git.rs:224-233 | The noted renames are the rename deltas of the window into walked files. |
| `HistoryLaws.WindowMeans` | src/analysis/git.rs:151-182 | The window is the walk without unreadable commits and merges, in order, and stops before the end only at 5000 commits. |
| `HistoryLaws.PairFreqMeans` | src/analysis/git.rs:272-281 | A commit with 2 to 50 listings adds the product of two files' listings to their pair, and m(m-1)/2 to a file's pair with itself. |
| `HistoryLaws.ReportedPairs` | src/analysis/git.rs:312-332 | A pair is reported exactly when its first file is met no later than its second, its count is its total and not zero, and ten times that is at least seven times one of the two frequencies. |
| `HistoryLaws.PairsInOrder` | src/analysis/git.rs:334-338 | Pairs come by falling count, then by name. |
| `HistoryLaws.HotspotCount` | src/analysis/git.rs:386-389 | Of n files there are n/10 hotspots, rounded up. |
| `HistoryLaws.HotspotsInOrder` | src/analysis/git.rs:368-383 | Hotspots come by falling frequency, then by name. |
| `HistoryLaws.HotspotsOnTop` | src/analysis/git.rs:368-383 | No file that is left out is hotter than a hotspot. |
| `HistoryTheorems.PairsAreJointCommits` | src/analysis/git.rs:272-338 | If no commit lists a file twice, a reported pair joins two different files, counts exactly their joint commits of 2 to 50 files, and satisfies 7 min <= 10 count <= 10 min. |
| `HistoryTheorems.EachPairOnce` | src/analysis/git.rs:272-338 | No two reported pairs are over the same two files. |
| `HistoryTheorems.MinedDensity` | src/analysis/clusters.rs:149-155 | For every history, the density of a cluster is at most 1 exactly when its self-pairs are no more than its two-member choices without a pair: mined pairs are never listed both ways. |
| `HistoryTheorems.MinedClustersAreDense` | src/analysis/clusters.rs:149-155 | If no commit lists a file more than twice, every cluster computed from the history has a density in [2/n, 1]. |
| `HistoryTheorems.SelfPairExample` | src/analysis/git.rs:272-281 | Two commits that list "a" three times and "b" once: the pair of "a" with itself is reported and strong. |
| `HistoryTheorems.DenseExample` | src/analysis/clusters.rs:149-155 | The cluster computed from that history has density 2. |
| `HistoryTheorems.PairDirection` | src/analysis/git.rs:274-277 | Of two files the one met first in the walk is listed first, so the documented order holds exactly when the smaller name is met first. |
| `HistoryTheorems.ReversedPairExample` | src/analysis/git.rs:59-60 | A two-commit history, the newest touching "b" and the older one "a" and "b", whose pair is reported as ("b", "a"). |
| `ImportGraph.TraverseIncoming` | src/graph/graph.rs:201-229 | The bounded breadth-first search returns exactly the files within that many reverse imports, each once, never the seed. |
| `ImportGraph.RadiusIsWithinSteps` | src/graph/graph.rs:201-229 | The levels of the search are exactly the files with an import chain of 1 to d steps. |
| `BlastRadius.Compute` | src/analysis/blast_radius.rs:84-107 | Direct and transitive counts are those of the files at 1 step and at 2 to 3 steps, the file itself excluded. |
| `BlastRadius.ExpandFrontier` | src/analysis/blast_radius.rs:128-143 | One round adds exactly the importers of the frontier and lists those not seen before. |
| `BlastRadius.Ancestors` | src/analysis/blast_radius.rs:127-147 | The early-exit frontier loop finds exactly the files within the depth, for every graph. |
| `BlastRadius.ComputeAll` | src/analysis/blast_radius.rs:115-166 | The batch result has exactly the given files, each with its counts at depth 3. |
| `BlastRadius.VersionsAgree` | src/analysis/blast_radius.rs:84-166 | At every depth the versions agree exactly for files on no import cycle of at most that length; elsewhere the batch version counts the file itself once, and where. |
| `BlastRadius.TwoFileCycle` | src/analysis/blast_radius.rs:128-138 | Two files that import each other: at depth 2 and beyond the batch version counts one importer more. |
| `BlastRadius.SingleMeans` | src/analysis/blast_radius.rs:84-107 | The single-file counts are those of the other files that import the file, and of those that reach it in two or three imports; score and tier follow with weight 0.3 and bounds 0, 5, 15 and 40. |
| `Propagation.ApplyAll` | src/analysis/propagation.rs:74-85 | Every listed file that passes the filter gets the contribution once, no other file changes. |
| `Propagation.ApplySecond` | src/analysis/propagation.rs:87-97 | Every file outside the skipped set gets the second-order contribution once per direct importer it imports. |
| `Propagation.ApplySource` | src/analysis/propagation.rs:60-99 | One record changes each file by exactly its number of contributing paths at distance 1 or 2. |
| `Propagation.FoldedIsEntry` | src/analysis/propagation.rs:104-116 | Applying contributions one after the other keeps the highest, the first record that makes it, and the number of paths. |
| `Propagation.ComputePropagation` | src/analysis/propagation.rs:54-102 | A file has an entry exactly when a source in [0.4, 0.8) reaches it in one or two imports; its value is the highest contribution, its primary source the first record attaining it. |
| `Propagation.EntryMeans` | src/analysis/propagation.rs:59-116 | An entry is the highest of 0.15 of a source's staleness for its importers and 0.05 for their importers, sources being from 0.4 up to below 0.8, and it names the file of a source that attains it. |
| `Propagation.DirectImporter` | src/analysis/propagation.rs:75-80 | A file that imports one of staleness 0.6 inherits 0.09. |
| `Propagation.ValueRange` | src/analysis/propagation.rs:54-116 | Every propagated value lies in [0.02, 0.12), below the threshold for becoming a source. |
| `Propagation.OrderDoesNotMatter` | src/analysis/propagation.rs:54-116 | Record order changes no value and no source count. |
| `Propagation.SourceCountIsPaths` | src/analysis/propagation.rs:87-111 | The source count is the number of contributing records exactly when none has two paths to the file; it is never less. |
| `Propagation.Diamond` | src/analysis/propagation.rs:87-111 | A diamond of imports: one contributing record, source count two. |
| `Walker.FileVisitor.Flush` | src/analysis/walker.rs:257-267 | A flush empties the buffer into the channel, and reports failure exactly when files were left and the receiver is gone. |
| `Walker.FileVisitor.Visit` | src/analysis/walker.rs:278-358 | With a live receiver, sent plus buffered grows by exactly the accepted file; without one nothing is sent and the walk quits exactly when a flush was due. |
| `Walker.FileVisitor.Drop` | src/analysis/walker.rs:270-275 | The last flush hands over everything still buffered, if there is a receiver. |
| `Walker.AcceptedMeans` | src/analysis/walker.rs:278-343 | The accepted files are those of readable regular files, not below .git, not binary and not over the limit. |
| `Walker.FlushesAt32` | src/analysis/walker.rs:345-357 | A visitor flushes exactly when an accepted file fills its buffer to 32. |
| `Walker.StepConserves` | src/analysis/walker.rs:252-275 | No step of any thread loses, duplicates or invents a file. |
| `Walker.DeliversExactlyOnce` | src/analysis/walker.rs:199-205 | For any number of threads and any interleaving, a complete walk has delivered every accepted file exactly once. |
| `Walker.ScheduleDoesNotMatter` | src/analysis/walker.rs:199-205 | If accepted files with one relative path are one file, the sorted result is the same sequence under every schedule, number of threads and sorting algorithm. |
| `Walker.RepeatableIff` | src/analysis/walker.rs:199-205 | The result is the same under every schedule if and only if accepted files with one relative path are one file. |
| `Walker.BackslashExample` | src/analysis/walker.rs:364-366 | A file named `a\b` beside a file `b` in directory `a`: the result depends on the schedule. |
| `Walker.ResultInOrder` | src/analysis/walker.rs:199-205 | The result comes by relative path. |
| `Ordering.StringLeMeans` | src/analysis/walker.rs:203 | Paths are compared by their first difference, a prefix coming first. |
| `Walker.AlwaysProgresses` | src/analysis/walker.rs:345-357 | Every step uses up work, so no schedule goes on forever. |
| `Walker.WalkCompletes` | src/analysis/walker.rs:252-275 | Every partial schedule with at least one worker extends to a complete walk. |
| `JsonText.ReadBack` | src/policy.rs:102-133 | A literal written with any table whose entries decode reads back and ends at its own closing quote (section 7 of RFC 8259). |
| `JsonText.RawControlFails` | src/cli/hook_decide.rs:882-888 | A raw control character makes a literal unreadable. |
| `JsonText.ControlMeans` | src/cli/hook_decide.rs:882-888 | Control characters are those below U+0020 (section 7 of RFC 8259). |
| `JsonText.ShortEscapesMean` | src/cli/hook_decide.rs:882-888 | The reader knows exactly the eight short escapes of section 7 of RFC 8259. |
| `Policy.LiteralReadsBack` | src/policy.rs:102-133 | Every string reads back from its canonical literal, whatever follows. |
| `Policy.CanonicalIsInjective` | src/policy.rs:102-133 | Different payloads have different canonical texts, for rule lists of any length and arbitrary strings. |
| `Policy.CanonicalMeans` | src/policy.rs:102-133 | The signed text is one object with organisation, bundle, issue time and rules in this order, each rule with id, target, level and reason, without white space. |
| `Policy.EscapesMean` | src/policy.rs:102-133 | Quotes and backslashes are escaped, five controls by letter, other controls by lower-case hexadecimal digits, and nothing else. |
| `Policy.Rejections` | src/policy.rs:148-175 | Version, algorithm, key and signature are checked in this order, each with its own error. |
| `Policy.FirstKey` | src/policy.rs:141-181 | The selected key is the first with the bundle's id, and none is selected exactly when none has it. |
| `Policy.AcceptanceTiesRules` | src/policy.rs:141-181 | A bundle is accepted exactly when it is a version-1 Ed25519 bundle whose signature is valid for its canonical text under the first key with its id; that text fixes organisation, bundle id and rules. |
| `Policy.NoKeyFallback` | src/policy.rs:141-181 | Keys after the first match change nothing, and without a match nothing verifies. |
| `HookDecide.ScanExtras` | src/cli/hook_decide.rs:268-319 | The scan over further files stops at the first denying one, or finds that none denies. |
| `HookDecide.Gate` | src/cli/hook_decide.rs:190-319 | The gate returns the first denying site in the order lexical path, symlink target, first fifty further files, and otherwise the lexical result unchanged; it lets pass when the daemon does not answer. |
| `HookDecide.EscalatesOnly` | src/cli/hook_decide.rs:190-319 | The gate denies exactly when some site denies. |
| `HookDecide.CollectDenied` | src/cli/hook_decide.rs:574-678 | The loop over a patch's files collects exactly the denied ones in order, each with its own event. |
| `HookDecide.ApplyPatchGate` | src/cli/hook_decide.rs:574-678 | Of the first fifty files of a patch exactly those whose evaluation denies are reported, each audited once, and the patch is blocked exactly when there is one. |
| `HookDecide.SiteDenies` | src/cli/hook_decide.rs:956-990 | A site denies exactly when the actor holds no receipt (a recent one for edits and Codex shell commands) and either the gotchas are readable and a record that is neither tombstoned nor a liability has a confirmed gotcha of confidence 0.6 and quality 0.4, or a mandated glob covers the path. |
| `HookDecide.ErrorsPass` | src/cli/hook_decide.rs:1036-1052 | A store error without a record, or unreadable gotchas, lets the access pass without an event. |
| `HookLaws.GateDenies` | src/cli/hook_decide.rs:190-319 | A gate denies exactly when the path should be denied, or its symlink target, or, for shell commands, one of the first fifty further files. |
| `HookLaws.PatchDenies` | src/cli/hook_decide.rs:574-678 | A patch reports exactly the keys of those of its first fifty files whose record blocks without a recent receipt. |
| `HookLaws.EvaluationTable` | src/hooks/decide.rs:420-579 | Which decision each stored record leads to, with the thresholds 0.3 and 0.4 for advice. |
| `HookLaws.EvaluationEvents` | src/hooks/decide.rs:420-579 | Each decision reports its one event for the file, or none. |
| `HookLaws.RulesShown` | src/hooks/decide.rs:470-494 | The rules shown are the non-empty rules of the attached trusted gotchas. |
| `HookLaws.PlatformTable` | src/cli/hook_decide.rs:726-785 | Which events each gate keeps, renames or drops. |
| `HookDecide.BlocksAreAudited` | src/cli/hook_decide.rs:726-785 | Every deny leaves exactly one audit event, for the denied file and the right cause; a Codex gate never mints a consultation receipt. |
| `HookDecide.OutputBlocksIff` | src/cli/hook_decide.rs:1097-1167 | On every single-path gate the answer blocks, as the platform reads it, exactly when the decision is a deny and, where the answer is JSON, its reason holds no control character but newline, carriage return and tab. |
| `HookLaws.SitePrints` | src/cli/hook_decide.rs:1057-1093 | A site prints the answer to its decision, or bypasses on an error. |
| `HookLaws.ContextsMean` | src/hooks/decide.rs:448-579 | Which text each decision carries, and the file a deny is about. |
| `HookLaws.ReasonTexts` | src/hooks/decide.rs:538-552 | The texts of the two deny reasons, with the staleness from 0.4 on. |
| `HookLaws.SafePathMeans` | src/hooks/decide.rs:538 | The quoted path has a backslash before every backslash and quote. |
| `HookLaws.Answers` | src/cli/hook_decide.rs:1097-1133 | What each gate prints and its exit code, for every decision. |
| `HookLaws.WireTexts` | src/cli/hook_decide.rs:1135-1167 | The fixed parts of the JSON answers. |
| `HookLaws.BypassAnswer` | src/cli/hook_decide.rs:190-199 | Without an answer of the daemon Claude's reads and shell commands are allowed explicitly, everything else by saying nothing. |
| `HookDecide.DenyBlocksIffPathClean` | src/cli/hook_decide.rs:956-990 | With the hook's own two deny reasons, a deny blocks exactly when the path holds no such character, except on the Codex shell gate, where it always blocks. |
| `HookDecide.UnreadableDeny` | src/cli/hook_decide.rs:882-888 | A mandated file whose name is the escape character is denied on a Claude read and not blocked. |
| `HookDecide.EscapeJsonIsSimultaneous` | src/cli/hook_decide.rs:882-888 | The five sequential replacements equal one simultaneous character escape. |
| `HookDecide.EscapedTextReadsBack` | src/cli/hook_decide.rs:882-888 | An embedded text reads back, its literal ending at the quote the hook wrote, if it has no control character but newline, carriage return and tab; otherwise the literal is invalid (section 7 of RFC 8259). |
| `HookLaws.CleanMeans` | src/cli/hook_decide.rs:882-888 | The condition on texts: every character is at least U+0020 or a tab, newline or carriage return. |
| `HookDecide.NoBareQuote` | src/cli/hook_decide.rs:882-888 | Whatever the text, control characters included, nothing in its escaped form can end the literal early. |
| `HookDecide.MessageArrives` | src/cli/hook_decide.rs:1135-1167 | The reason of a deny and the context of an advisory, a liability or a consulted record are read back from the answer unchanged, with nothing behind them but the closing braces, exactly when they hold no control character but newline, carriage return and tab. |
| `Reparse.EmptyDiffMeans` | src/analysis/reparse.rs:372-417 | A diff is empty exactly when public names, imports, to-do comments and counts are the same. |
| `Reparse.Store.Cascade` | src/health/staleness.rs:139-179 | The linked gotchas are made staler in link order and nothing else changes. |
| `Reparse.Store.Reparse` | src/analysis/reparse.rs:53-199 | For every disk and store state, the file's record ends up exactly as the staged version computes it, nothing is written when that yields nothing, and only linked gotchas change besides. |
| `Reparse.SecondReparse` | src/analysis/reparse.rs:149-153 | Reparsing again is silent, and changes nothing in the store, exactly when the file is on disk or was never recorded. |
| `Reparse.EnrichmentSurvives` | src/analysis/reparse.rs:155-186 | No series of edits, parse failures, deletions and returns changes a record's identity or any enrichment field. |
| `Reparse.ShowsLastParse` | src/analysis/reparse.rs:155-186 | After any series the record shows the structure that was parsed last, however often the file was unreadable or missing since. |
| `Reparse.SilentIffUnchanged` | src/analysis/reparse.rs:149-153 | After any series, reparsing a readable file writes nothing exactly when its public names, imports, to-do comments and counts are those parsed last. |
| `Reparse.PrintsCurrentIff` | src/analysis/reparse.rs:149-153 | After a reparse, content hash, line count and token cost are those of the file exactly when the record did not show its structure before or had them already. |
| `Reparse.PrintsOfLastRewrite` | src/analysis/reparse.rs:149-186 | After any series those fields are those of the last run that rewrote the structure. |
| `Reparse.RewritesIff` | src/analysis/reparse.rs:149-153 | A run rewrites exactly when its structure differs from the one parsed before it. |
| `Reparse.HashLags` | src/analysis/reparse.rs:149-153 | A new file that is then edited without changing its structure keeps the hash of its first version. |
| `Reparse.ClockCountsWrites` | src/analysis/reparse.rs:53-199 | Over any series of reparses the logical clock counts the writes and the record is never lost. |
| `Reparse.CascadeCountsLinks` | src/health/staleness.rs:139-179 | A cascade adds and removes no record and raises a gotcha's clock once per link to it. |
| `Reparse.OtherRecordsKept` | src/analysis/reparse.rs:188-199 | A reparse leaves every record alone that the file does not link, and loses none. |
| `Reparse.StalenessRises` | src/analysis/reparse.rs:63-76 | A reparse never lowers a file's staleness nor takes it above 1, and raises it by at most 0.4 exactly unless a recorded file with staleness below 0.6 is found gone. |
| `ReparseLaws.StructureMeans` | src/analysis/reparse.rs:372-417 | A record shows a parse exactly when public names, imports, to-do texts and lines and the two counts agree. |
| `ReparseLaws.StalenessAfterChange` | src/health/staleness.rs:88-123 | A change raises staleness by 0.15 per public name, 0.10 per import, 0.05 for to-dos, 0.10 and 0.05 per unsafe and unwrap, at most by 0.4 and to 1, with the tier at the bounds 0.2, 0.4, 0.7 and 0.9. |
| `ReparseLaws.SignalsAfterChange` | src/health/staleness.rs:88-131 | It leaves its signals in order, of which the newest twenty are kept. |
| `ReparseLaws.ReplacedEntryPoint` | src/health/staleness.rs:88-92 | A record at 0.35 whose one entry point is replaced goes to 0.65, tier Stale. |
| `ReparseLaws.CascadeRaises` | src/health/staleness.rs:156-163 | A cascade raises a gotcha by 0.10 per link, at most to 1. |
| `ReparseLaws.NewRecordMeans` | src/analysis/reparse.rs:104-132 | A new record is bare and fresh, with a clock of 1. |
| `ReparseLaws.RebuiltRecordMeans` | src/analysis/reparse.rs:135-147 | A record without a payload gets a bare one and keeps its staleness. |
| `ReparseLaws.GoneRecordMeans` | src/analysis/reparse.rs:62-76 | A recorded file that is gone gets value 1, the tombstone tier and one more signal, and keeps the rest. |
| `Reparse.SignalCap` | src/health/staleness.rs:125-131 | A record within the cap of twenty signals stays within it exactly unless it is full and its file is found gone. |
| `Reparse.SignalsBounded` | src/health/staleness.rs:125-131 | Over any series the cap is exceeded by at most one signal per reparse that finds the file gone. |
| `Reparse.DeletionsPileUp` | src/analysis/reparse.rs:63-76 | Every reparse of a recorded file that is gone adds one signal, without end. |
| `Reparse.TombstoneIsFinal` | src/analysis/reparse.rs:53-199 | No series of reparses clears a tombstone or lowers its value. |
| `Reparse.RecordedIff` | src/analysis/reparse.rs:53-199 | After any series a file has a record exactly when it had one or was parsed at some point. |
| `Reparse.DeletedStaysTombstoned` | src/analysis/reparse.rs:63-76 | A recorded file found gone once is tombstoned at value 1 after every series that goes on from there. |
| `Deps.Gather` | src/analysis/deps.rs:150-171 | Every entry of every readable manifest is listed, shallowest manifests first, and exactly the readable ones count as found. |
| `Deps.Dedup` | src/analysis/deps.rs:173-182 | Exactly the first entry of every identity is kept. |
| `Deps.ParseDependencies` | src/analysis/deps.rs:134-191 | Exactly one entry per ecosystem and name declared in any readable manifest, taken from a manifest of minimal depth, sorted by name. |
| `Deps.ManifestMeans` | src/analysis/deps.rs:134-146 | Manifests are the files named Cargo.toml, package.json or go.mod, in any directory. |
| `Deps.DepthMeans` | src/analysis/deps.rs:147-148 | Depth is the number of slashes. |
| `Deps.OnePerName` | src/analysis/deps.rs:173-182 | No ecosystem and name comes twice. |
| `Deps.FewestSlashes` | src/analysis/deps.rs:147-182 | What a readable manifest declares is there, taken from a manifest with no more slashes. |
| `Deps.MergedByName` | src/analysis/deps.rs:184-185 | The merged dependencies come by name. |
| `Deps.KeyMeans` | src/analysis/deps.rs:86-88 | The record keys start with "dep:cargo:", "dep:npm:" and "dep:go:". |
| `Deps.KeyRoundTrip` | src/analysis/deps.rs:86-113 | A record key gives ecosystem and name back for every name, colons included. |
| `Deps.KeysAreDistinct` | src/analysis/deps.rs:86-113 | The record keys of merged dependencies are pairwise different. |
| `Deps.LegacyKey` | src/analysis/deps.rs:94-113 | A key without ecosystem keeps its whole name exactly when the name does not start with an ecosystem and a colon. |
| `Deps.LegacyExample` | src/analysis/deps.rs:94-113 | The old key of a dependency named "go:x" is read as "x" of the Go ecosystem. |
| `GotchaKeys.CandidatesDiffer` | src/cli/gotcha.rs:195-239 | Different suffixes give different keys. |
| `GotchaKeys.CandidateMeans` | src/cli/gotcha.rs:217-225 | The first candidate is "gotcha:" and the slug, the others carry their number behind a colon. |
| `GotchaKeys.DecimalMeans` | src/cli/gotcha.rs:217-225 | A number is written in decimal digits without a leading zero. |
| `GotchaKeys.MatchMeans` | src/cli/gotcha.rs:195-210 | A record matches when it is active and agrees in rule, reason, severity, affected files and reference. |
| `GotchaKeys.ChooseKey` | src/cli/gotcha.rs:195-239 | The search ends on every finite store at the first suffix that is free or matches; all earlier ones are taken by something else. |
| `GotchaKeys.OutcomeIsDetermined` | src/cli/gotcha.rs:195-239 | It fails exactly when an active matching record is met before any free suffix; otherwise the key is unused and has the smallest free suffix. |

## Left out

- Rounding: floating-point values are exact here. The 0.70 ratio is `10 * count >= 7 * min`, the hotspot tenth is an integer ceiling, densities, weights and staleness are reals.
- Machine widths: counters are unbounded; only the 32-bit difference of reparse counts is written out, with wrap-around, where a debug build would stop instead.
- Clusters.BuildCluster: the label and the id of a cluster.
- Clusters.Compute: labels and ids, their disambiguation, and the order of equally large clusters by label, because the code does not make them unique or fully deterministic.
- git itself: a commit is its parent count, committer, message and list of deltas; the walk order and rename detection are inputs. That no commit lists a file twice is a premise only of `HistoryTheorems.PairsAreJointCommits` and `HistorySpec.PairFreqCountsCommits`.
- Propagation.ComputePropagation: staleness is a number on each record; reading and writing records is not modelled.
- ServeLoop.IdleNeedsQuiet: relaxed atomic loads and stores are taken in one order; accepting a connection and noting its time is one step.
- ServeLoop.CloseIsExclusive: of a request only what it does to ownership is modelled; it may leave one deferred write, as `mem_get` and `mem_bootstrap` do.
- ServeLoop.ShutdownCompletes: timeouts, OS signals and the end of a handler are steps that may happen at any time, not real time. Waiting for shutdown is abstracted to the flag; that no wake-up is lost is `Shutdown.NoLostWakeup`. The semaphore is never closed.
- Daemon start and stop files, sentinels, socket I/O and peer credentials.
- Walker.FileVisitor.Visit: gitignore matching, language detection and relative paths are fields of the entry.
- Walker.RepeatableIff: ties are broken as a stable sort does; `Walker.ScheduleDoesNotMatter` holds for any sort.
- JsonText.ReadBack: surrogate pairs of `\u` escapes are not read; neither writer produces them. Characters stand for their UTF-8 encoding.
- Policy.AcceptanceTiesRules: Ed25519 verification and base64 decoding are functions that the caller gives.
- HookDecide.Gate: path extraction from commands, glob compilation and the human-readable texts are parameters; the daemon is a function from path to answer.
- HookDecide.DenyBlocksIffPathClean: the two deny reasons are spelled out; how the staleness is printed in one of them is a parameter that prints no control character.
- Reparse.Store.Reparse: tree-sitter parsing is an input and store errors are not modelled; one clock value is used within a call.
- Deps.ParseDependencies: the manifest readers are a function from path to entries; the line-based Cargo.toml reader is not a faithful TOML reader and is not modelled.
- Graph persistence, search, resolvers, onboarding, evaluation scores and the CLI's rendering, which would only add easy members.
