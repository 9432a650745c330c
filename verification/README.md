# bole in Dafny

A verified model of the algorithmic cores of bole, a content-addressed version
store: ref transactions and their write-ahead journal, timeline advance and
policy-root adoption as concurrent protocols, relay search, packs and garbage
collection, the sync closure walk, the glob matcher, the label lattice and the
accessor, and the algorithms over snapshots and trees. Each core is a fast,
concurrent or crash-prone form; what is proved is that it agrees with a simple one.

`dafny verify dfyconfig.toml` checks everything.

## Layout

| files | subject |
|---|---|
| `Wrappers`, `Reach`, `Objects` | options and results, ordered enumeration, reachability with its search invariants, the object model |
| `Collab`, `Trust`, `Search`, `Discovery`, `Relay` | trust graph walks, the relay filter, the client ranking, and when the filter is invisible |
| `Refs`, `Journal` | ref transactions; the journalled disk backend with crashes |
| `Packed`, `Conservation`, `Gc`, `Negotiate` | packs, repack, sweep; what a set closed under marking preserves; mark and collect; the transfer closure |
| `Glob`, `Lattice`, `Rules`, `Access` | matching, labels, effective labels, decisions and their traces |
| `History`, `Merge`, `Trees`, `Walks`, `RoundTrips` | ancestry, common ancestor, topological order; three-way merge; nested trees, their walkers, and building and walking back |
| `Hooks`, `Advance`, `AdvanceRuns` | policy hooks; one advance; every interleaving of advances |
| `Authority`, `Adoption` | policy chains and their preference; every interleaving of adoptions |

## How it is modelled

- Ids and keys are natural numbers whose order is the byte order of the digest.
  An object stands for its bytes. Ids name one content for ever, so a run is
  described against a fixed `universe`; the store of the moment is a part of it.
  Acyclicity of histories and nesting of trees are stated hypotheses
  (`Acyclic`, `Nested`), as content addressing gives them.
- A crash is a `budget`: the number of disk operations that complete. A contract
  that holds for every budget holds for a crash at every step.
- A concurrent protocol is a relation `Takes` between states with one case for
  each read, check and swap of the code and one for everything else the
  repository may do meanwhile. A run is any sequence of such steps; theorems are
  about every state of every run. The methods that perform the steps are proved
  to compute the guards used there; the sequential call is proved as a method of a
  class over the ref store, and whatever it lets through is a run
  (`AdvanceRuns.AdvanceIsRun`, `Adoption.AdoptionIsRun`).
- Signature verification, approval verdicts, content hashes, fingerprints, clocks
  and directory listings are parameters.
- Ordered maps and sets are walked in key order (`InOrder`, `Sorted`). Where the
  source returns a set as a list and promises only the set (`missing_closure`),
  the contract states the set and that nothing comes twice.
- A tree walk is a loop over a stack; it is proved to compute the recursive walk
  `Visits`, so that even the last writer of a path shared by two files is
  determined. A file is known by the path its names join to; nothing is assumed
  of the names.

## Findings

- A pack is named after its content in index order and repack deletes every
  previously loaded pack by name, its own new one included. A repack with
  something to keep conserves it if and only if the new name is not loaded already
  (`Packed.PackedDiskBackend.RepackKeeping`); repacking a lone pack twice loses
  everything, and so do two garbage collections (`Packed.RepackTwice`,
  `Gc.Repository.CollectTwice`).
- The backend's object count is right if and only if no two loaded packs hold the
  same object, which an interrupted repack can bring about; the number a sweep
  reports follows it (`Packed.CountExact`).
- The common-ancestor search returns the nearest ancestor where neither side's own
  history has a merge, and wherever every way to a common ancestor leads over one
  snapshot (`History.NearestOnLinear`, `History.NearestIsGateway`). On other merge
  histories it need not (`History.NotNearestOnMerges`), although its comment calls
  the result a lowest common ancestor.
- Building trees and walking them back restores the flat map if and only if no
  path runs through another and no path starts with a separator. Inner empty
  segments are harmless (`RoundTrips.RoundTrip`). A clean merge of two maps without
  such clashes has one if and only if both sides add paths and one added path runs
  through another (`RoundTrips.MergeClash`).
- The privileged accessor carries its own two-point lattice, so it sees every path
  if and only if the repository's lattice has no other label above its bottom
  (`Access.PrivilegedNeedsTwoPoint`).
- The relay filter is invisible for every corpus if and only if the relay looks as
  far as the client and, for a client that looks further than one hop, every link
  it holds of somebody else leads where it has a direct link or a vouched way that
  comes no later (`Relay.RelayTransparent`). The relay clamps to six hops and the
  command line passes links of tracked peers, so neither is a matter of course.
- Marking and syncing follow different edges of policy roots. They reach the same
  objects if and only if what every marked policy root refers to is marked by some
  other way (`Objects.EdgesAgree`).
- Asking `follow_paths` for 255 hops overflows a byte if and only if some key lies
  exactly that far away (`Trust.FollowPaths`).

## Model

| member | source | states |
|---|---|---|
| `Trust.FollowNeighborhood` | src/collab/trust.rs:45-63 | exactly the keys within the bound, each with its least Follow distance |
| `Trust.FollowPaths` | src/collab/trust.rs:70-91 | same domain as the neighbourhood; each path is a chain of real Follow edges from the root with as many edges as the least distance; the byte subtraction overflows exactly for 255 hops with a key at distance 255 |
| `Trust.FollowMeans` | src/collab/trust.rs:35-43 | following means a Follow edge from that key, of no other kind |
| `Trust.TrustNeighbors` | src/collab/trust.rs:132-146 | every Follow or Vouch neighbour once, ascending, with the stronger kind |
| `Trust.TrustPath` | src/collab/trust.rs:155-181 | the first path among all bounded walks, fewest hops then least key by key, made of real Follow or Vouch edges from the root to the target; none exactly when no bounded walk exists |
| `Trust.BestUnique` | src/collab/trust.rs:155-181 | the best path is unique, so tie-breaks are determined |
| `Trust.PathBehind` | src/collab/trust.rs:163-179 | breadth-first discovery order is shortest-then-lexicographic order |
| `Trust.BeforeMeans` | src/collab/trust.rs:163-179 | the order of paths: shorter first, then the smaller key at the first difference |
| `Trust.WalkMeans` | src/collab/trust.rs:132-146 | a walk is a chain of Follow or Vouch edges from the root |
| `Trust.RouteFound` | src/collab/trust.rs:168-177 | the first discovery of the target is the best path to it |
| `Search.ReverseWalk` | src/collab/search.rs:42-93 | the reverse walk around one match adds exactly the edges that can close a bounded walk into it |
| `Search.SearchBall` | src/collab/search.rs:42-93 | the matching profiles in corpus order and exactly the union of their balls, no edge twice |
| `Search.BallMeans` | src/collab/search.rs:42-93 | an edge is in the ball exactly when a chain of fewer than the given number of edges, of whatever kind, leads from its end to the match |
| `Collab.MatchMeans` | src/collab/search.rs:24-31 | a term finds a profile by display name, biography, any alias or the digits of its key, and by nothing else |
| `Collab.KeyHexReadsBack` | src/collab/mod.rs:55-61 | the 64 digits of a 32-byte key read back as the key |
| `Discovery.SortCorrect` | src/collab/discovery.rs:206-219 | the ranking sort orders, permutes, and keeps ties in place |
| `Discovery.RankStrangers` | src/collab/discovery.rs:169-221 | in the hits connected people come first, then fewer hops, then a vouch on the way, then the display name, then the fingerprint; one hit for each matching profile, with its best path; ties as in the corpus |
| `Discovery.RankMeans` | src/collab/discovery.rs:206-219 | the comparison used is that order |
| `Relay.PrefixBest` | src/collab/trust.rs:155-181 | every beginning of a best path is first among the walks to where it ends |
| `Relay.BestExists` | src/collab/trust.rs:155-181 | where there is a bounded walk there is a best one |
| `Relay.HarmlessHead` | src/collab/discovery.rs:176-194 | on a harmless client's best path at most two steps precede the part the corpus alone provides, and of two the first is its own vouched link |
| `Relay.PathKept` | src/collab/search.rs:42-93 | a corpus cut down to a target's ball has the same best path to it as the whole corpus |
| `Relay.RelayTransparent` | src/collab/search.rs:42-93 | for every corpus the relay's answer ranks as the corpus, hits, order and paths, if and only if the relay looks as far as the client and the client's foreign links are harmless |
| `Relay.AnswerRanks` | src/collab/discovery.rs:169-221 | under that condition ranking the answer equals ranking the corpus |
| `Relay.AnswerSearch` | src/sync/collab.rs:106-124 | short terms refused, the bound clamped to six hops, the answer exact for it |
| `Relay.RelayedSearch` | bole-cli/src/commands/discover.rs:73-94 | filter then rank, end to end, equals ranking everything under the exact condition |
| `Relay.ShortSighted` | src/sync/collab.rs:113-114 | a client that looks further than the relay can always tell, whatever its own edges |
| `Relay.OwnEdgesMatter` | src/collab/discovery.rs:176-182 | for every foreign link that is not harmless and every term some corpus tells the answer apart |
| `Relay.OwnAreHarmless` | src/collab/discovery.rs:176-182 | a client whose own edges all start at itself is harmless |
| `Refs.ResolveOne` | src/refs/transaction.rs:107-199 | one buffered op is refused for exactly the reasons stated of the map alone (a create over an existing ref, a missing ref, a ref of the other kind, an unmet expectation), and otherwise writes exactly the named ref |
| `Refs.OpFails` | src/refs/transaction.rs:107-199 | an op fails exactly when the map refuses it, with that reason |
| `Refs.OpEffect` | src/refs/transaction.rs:107-199 | what each kind of op makes of the map, field by field |
| `Refs.RunSpares` | src/refs/transaction.rs:107-199 | a successful run leaves every ref it does not name, and the kind, policy and creation time of those it does not set or delete |
| `Refs.RunFails` | src/refs/transaction.rs:107-199 | a run fails exactly at an op refused after the ops before it have run |
| `Refs.Resolve` | src/refs/transaction.rs:107-199 | applying the plan equals running the ops in turn; it fails exactly when they do, with the same error; names are distinct |
| `Refs.RunConcat` | src/refs/transaction.rs:107-199 | running a concatenation is running its parts in turn |
| `Refs.OrderIrrelevant` | src/refs/transaction.rs:107-199 | a plan with distinct names may be applied in any order |
| `Refs.Replay` | src/refs/disk.rs:193-201 | replaying a plan over any prefix of its own effect gives its full effect |
| `Refs.RefStore.CreateTagRef` | src/refs/mod.rs:53-67 | over an existing ref `AlreadyExists` and no change; otherwise exactly that tag is added |
| `Refs.RefStore.MoveTagRef` | src/refs/mod.rs:69-81 | changes exactly the target of an existing tag; a missing ref or a timeline is an error and no change |
| `Refs.RefStore.CreateTimelineRef` | src/refs/mod.rs:94-127 | over an existing ref `AlreadyExists` and no change; otherwise exactly that timeline is added |
| `Refs.RefStore.AdvanceHeadRef` | src/refs/mod.rs:129-141 | changes exactly the head of an existing timeline; a missing ref or a tag is an error and no change |
| `Refs.RefStore.DeleteRef` | src/refs/mod.rs:158-160 | the name is gone, nothing else moved |
| `Refs.RefStore.CommitTransaction` | src/refs/mod.rs:179-189 | all ops in turn, or, exactly when some op is refused after those before it, that op's error and nothing; a ref not named stays, and kind, policy and creation time change only by `Set` or `Delete` |
| `Journal.DiskRefBackend.WriteValues` | src/refs/disk.rs:193-201 | at every crash point the plan still leads to the same final map |
| `Journal.DiskRefBackend.ApplyAtomic` | src/refs/disk.rs:132-164 | only the journal rename changes what the store means |
| `Journal.DiskRefBackend.Recover` | src/refs/disk.rs:167-187 | recovery never changes the meaning, at any crash point; finished, the files hold it |
| `Journal.DiskRefBackend.OpenStore` | src/refs/disk.rs:15-22 | a completed open leaves files equal to the meaning and no journal |
| `Journal.DiskRefBackend.CommitTransaction` | src/refs/mod.rs:179-189 | a crash at any step leaves the whole old or the whole new map; refs not named stay, and kind, policy and creation time change only by `Set` or `Delete` |
| `Journal.DiskRefBackend.Session` | src/refs/disk.rs:132-187 | any history of commits, crashes and reopen attempts moves the store by whole transactions only |
| `Objects.EdgesAgree` | src/repo/mod.rs:1226-1254 | mark edges and transfer edges reach the same objects if and only if every marked policy root's references are marked anyway |
| `Objects.PartAt` | src/sync/negotiate.rs:42-48 | what a marked policy root refers to is transferred with it, marked or not |
| `Objects.EdgesMean` | src/repo/mod.rs:1226-1254 | a set is closed under marking if and only if with each stored snapshot it holds root and parents, with a tree its entries, with an overlay its secret references; under syncing if and only if also with a policy root its lattice, rules and parent |
| `Negotiate.MissingClosure` | src/sync/negotiate.rs:57-75 | without duplicates, exactly what is reached around the have-set and stored |
| `Negotiate.PrunedIsExact` | src/sync/negotiate.rs:25-75 | for a closed receiver and a complete sender that is the closure minus the have-set |
| `Negotiate.Transfer` | src/sync/negotiate.rs:57-75 | the receiver gains exactly the missing closure and is closed again; every ancestor of a wanted snapshot and every directory and file of each is there |
| `Packed.PackedDiskBackend.GetObject` | src/store/packed.rs:254-267 | an object with its original content exactly when loose or in a complete pack |
| `Packed.PackedDiskBackend.PutObject` | src/store/packed.rs:246-252 | the object becomes readable, nothing else changes, no second copy of a packed one |
| `Packed.PackedDiskBackend.LoadPacks` | src/store/packed.rs:165-196 | exactly the packs with both files |
| `Packed.PackedDiskBackend.Collect` | src/store/packed.rs:79-101 | the kept readable objects, each once, with their content |
| `Packed.PackedDiskBackend.WritePack` | src/store/packed.rs:212-231 | at every crash point: nothing, an invisible pack, or a complete one |
| `Packed.PackedDiskBackend.RetirePacks` | src/store/packed.rs:139-149 | only files of the named packs go away |
| `Packed.PackedDiskBackend.RepackKeeping` | src/store/packed.rs:74-136 | with a fresh name no crash loses a kept object; a finished run with something to keep kept it if and only if the name was fresh; the finished state is exact either way |
| `Packed.PackedDiskBackend.Sweep` | src/store/packed.rs:314-338 | reachable objects survive every crash; unreachable survivors are loose and written less than the grace period ago; the reported number is the loss of readable objects if and only if no two packs shared one |
| `Packed.SweepMeans` | src/store/packed.rs:314-338 | an unreachable loose object survives exactly inside the grace window, whose end saturates; every other unreachable object goes |
| `Packed.PackedDiskBackend.CountObjects` | src/store/packed.rs:295-306 | the packs' own counts plus the loose objects in no pack |
| `Packed.CountExact` | src/store/packed.rs:295-306 | never below the number of readable objects, and equal to it if and only if no two loaded packs hold the same one |
| `Packed.StagesSafe` | src/store/packed.rs:110-134 | any cut through write, retire, drop keeps every copied object when the name is fresh |
| `Packed.StagesExact` | src/store/packed.rs:110-134 | what is readable after the last stage, fresh name or not |
| `Packed.RepackTwice` | src/store/packed.rs:66-68 | two repacks of a lone pack leave nothing readable |
| `Gc.DefaultSweep` | src/store/backend.rs:55-69 | the store restricted to the reachable ids, and how many went |
| `Gc.PackedSweepIsSimple` | src/store/packed.rs:314-338 | the packed sweep keeps what the simple sweep keeps if and only if the name was fresh (or nothing was to be kept) and the grace window protects nothing unreachable |
| `Gc.Repository.MarkReachable` | src/repo/mod.rs:1226-1254 | the least set that holds the heads, tag targets and extra roots and, with each stored snapshot, its root and all its parents, with a tree its entries, with an overlay its secret references |
| `Gc.Repository.CollectGarbage` | src/repo/mod.rs:1190-1201 | mark and sweep conserve every readable object the refs and extra roots lead to, at every crash point; every readable ancestor of every head and tag target stays readable |
| `Gc.Repository.CollectKeepingHistory` | src/repo/mod.rs:1190-1201 | after collecting under a fresh name, at every crash point, every readable snapshot in the history of a ref is the same object and every walk of its tree, under every view, ends as before |
| `Gc.TargetsMean` | src/repo/mod.rs:1190-1201 | the roots are exactly the heads of the timelines and the targets of the tags |
| `Conservation.WalkKept` | src/repo/ephemeral.rs:115-139 | stores that agree on a set closed under marking give the same walk of any tree whose root is in it, or the same error |
| `Conservation.AncestorsIn` | src/repo/mod.rs:1226-1254 | such a set holds the whole history of each of its snapshots |
| `Gc.MarkedStable` | src/repo/mod.rs:1226-1254 | losing only what is unmarked changes nothing for the next marking |
| `Gc.Repository.CollectTwice` | src/repo/mod.rs:1190-1201 | two finished collections in a row from a lone pack leave no marked object readable |
| `Glob.MatchIffSplit` | src/acl/glob.rs:15-96 | suffix-by-suffix matching is the existence of a split of the path that fits the pattern's tokens |
| `Glob.Matches` | src/acl/glob.rs:27-96 | the memo holds only truly failing pairs, and the answer does not depend on it |
| `Glob.Evaluate` | src/acl/glob.rs:27-96 | one uncached evaluation decides the match |
| `Glob.GlobMatches` | src/acl/glob.rs:15-96 | the split semantics within the length limit; failing evaluations at most (pattern+1)*(path+1) |
| `Glob.LiteralLaw` | src/acl/glob.rs:27-96 | a pattern without a star matches itself and nothing else |
| `Glob.StarLaw` | src/acl/glob.rs:27-96 | a lone star stands for any part of one segment |
| `Glob.TrailingLaw` | src/acl/glob.rs:27-96 | a trailing double star stands for any rest |
| `Glob.SegmentsLaw` | src/acl/glob.rs:27-96 | a double star before a separator stands for any number of whole segments, none included |
| `Lattice.Dominates` | src/acl/lattice.rs:59-78 | the reflexive-transitive closure of the cover edges |
| `Lattice.AboveMeans` | src/acl/lattice.rs:59-78 | one label is above another exactly when a chain of cover edges rises from it |
| `Lattice.BottomOf` | src/acl/lattice.rs:114-121 | the first label below all, or the fallback |
| `Lattice.TopOf` | src/acl/lattice.rs:123-129 | the first label above all, or the fallback |
| `Lattice.JoinOf` | src/acl/lattice.rs:86-98 | the first least upper bound in label order, or the top |
| `Lattice.MeetOf` | src/acl/lattice.rs:100-112 | the first greatest lower bound in label order, or the bottom |
| `Lattice.JoinIsLub` | src/acl/lattice.rs:86-98 | in a validated lattice the join is the least upper bound |
| `Lattice.MeetIsGlb` | src/acl/lattice.rs:100-112 | in a validated lattice the meet is the greatest lower bound |
| `Lattice.JoinUnknown` | src/acl/lattice.rs:86-98 | joining an unknown label gives the top |
| `Lattice.Validate` | src/acl/lattice.rs:134-212 | succeeds exactly when every check holds; an error names a check that fails |
| `Lattice.ValidatedIffLattice` | src/acl/lattice.rs:131-212 | the checks hold exactly of finite lattices |
| `Lattice.TwoPointLattice` | src/acl/lattice.rs:50-57 | the default configuration is a validated lattice, public below protected |
| `Rules.LabelFor` | src/acl/rules.rs:28-64 | the accumulated join over the matching rules of the resource's kind |
| `Rules.AppliesMeans` | src/acl/rules.rs:28-64 | path rules bear on paths, timeline rules on timelines, secret rules on secrets, when the pattern matches |
| `Rules.OtherKinds` | src/acl/rules.rs:28-64 | rules of other kinds leave a label at the bottom |
| `Rules.Effective` | src/acl/rules.rs:28-64 | that join is the least label over the set of matching labels |
| `Rules.OrderIndependent` | src/acl/rules.rs:28-64 | rule order and repetition do not matter |
| `Rules.Monotone` | src/acl/rules.rs:28-64 | more rules give a label at least as high |
| `Rules.UnknownIsTop` | src/acl/rules.rs:28-64 | a matching rule with an unknown label gives the top |
| `Access.EvalClearance` | src/acl/mod.rs:373-425 | one clearance qualifies exactly when it carries the capability, is in scope and dominates |
| `Access.EvalCap` | src/acl/mod.rs:373-425 | the trace's verdict is the enforcement verdict; decisive and blocked marks mean what they say |
| `Access.ReadMeans` | src/acl/mod.rs:293-301 | reading takes a read clearance that bears on the resource and dominates its label |
| `Access.WriteMeans` | src/acl/mod.rs:303-332 | writing takes a write clearance likewise, and of a confined actor one at the label itself |
| `Access.NoCapability` | src/acl/mod.rs:293-332 | without the capability nothing is permitted, whatever the ceilings |
| `Access.IsVisible` | src/repo/mod.rs:1307-1312 | public, or covered by a read clearance |
| `Access.IsWritable` | src/acl/mod.rs:303-332 | covered by a write clearance, at the actor's own level if confined |
| `Access.VisibleMeans` | src/repo/mod.rs:1307-1312 | shown are exactly the paths whose effective label lies below all, or is dominated by a read clearance bearing on the path |
| `Access.WritableMeans` | src/acl/mod.rs:303-332 | writable are exactly the paths whose effective label a bearing write clearance dominates; being public gives nothing |
| `Access.ExplainPath` | src/repo/mod.rs:689-782 | the explanation's verdicts, label and matching rules agree with enforcement |
| `Access.MatchedMeans` | src/repo/mod.rs:689-782 | the patterns listed are exactly those of the path rules that match |
| `Access.RulesShrinkView` | src/acl/mod.rs:293-332 | more label rules can only hide |
| `Access.ClearancesGrowView` | src/acl/mod.rs:293-332 | one more clearance can only show and permit |
| `Access.PrivilegedReads` | src/acl/mod.rs:270-282 | the privileged accessor reads the two-point labels and writes nothing |
| `Access.PrivilegedSeesAll` | src/acl/mod.rs:270-282 | under the two-point lattice nothing is hidden from it |
| `Access.PrivilegedNeedsTwoPoint` | src/acl/mod.rs:270-282 | over a validated lattice it sees everything under all rules if and only if there is no further label |
| `History.IsAncestor` | src/acl/hook.rs:111-134 | exactly reachability along parent edges |
| `History.AncestryIsDescent` | src/acl/hook.rs:111-134 | reachability is a line of stored snapshots, each naming the next among its parents |
| `History.ExpandFrontier` | src/repo/merge.rs:153-171 | the new frontier is the unvisited parents of the old one |
| `History.FindCommonAncestor` | src/repo/merge.rs:113-148 | none exactly when there is no common ancestor; else the common ancestor met soonest, and of those the least id |
| `History.SoonestMeeting` | src/repo/merge.rs:113-148 | among all common ancestors the one whose distances meet soonest, the first side a step ahead, and of those the least id |
| `History.NearestOnLinear` | src/repo/merge.rs:110-148 | where neither side's own history has a merge every common ancestor is an ancestor of the answer |
| `History.NearestIsGateway` | src/repo/merge.rs:110-148 | if every way to a common ancestor leads over one snapshot the answer is that one, and it is the nearest |
| `History.NotNearestOnMerges` | src/repo/merge.rs:135-142 | a merge history where it is not |
| `History.CollectTopo` | src/repo/git_projection.rs:172-199 | exactly the reachable ids, each once, parents first |
| `History.Project` | src/repo/git_projection.rs:82-104 | the commits parents first; each commit's parents stand, in order and position by position, for exactly the stored snapshot parents, for all of them when all are stored |
| `History.MapParentsStand` | src/repo/git_projection.rs:95-97 | the mapped parents stand in strictly increasing positions, every mapped one present |
| `History.TopoCommits` | src/repo/git_import.rs:289-315 | the same for imported commits, every commit's own parents before it; an error exactly when a reachable commit is missing |
| `Merge.ThreeWayDiff` | src/repo/merge.rs:34-108 | at every path the side that changed wins, agreement stands, else one conflict with both values; conflicts in path order |
| `Merge.MergeMeans` | src/repo/merge.rs:34-108 | the rule at one path, case by case over the three values |
| `Merge.Accounted` | src/repo/merge.rs:34-108 | merged and conflicting paths are disjoint; a path that is neither was deleted without contest |
| `Merge.SwapMirrors` | src/repo/merge.rs:34-108 | swapping the sides gives the same map and each conflict mirrored in place |
| `Merge.UnchangedYields` | src/repo/merge.rs:34-108 | an unchanged side yields the other, cleanly |
| `Merge.RemergeIsClean` | src/repo/merge.rs:34-108 | merging the same source again changes nothing and is clean |
| `RoundTrips.MergeClash` | src/repo/merge.rs:34-108 | a clean merge of prefix-free maps is prefix-free if and only if no path added by one side runs through one added by the other |
| `RoundTrips.MergeRebuilds` | src/repo/ephemeral.rs:61-139 | a clean merge of maps that survive rebuilding survives it under exactly that condition |
| `Trees.InsertLookup` | src/repo/ephemeral.rs:79-86 | an insert is read back at its own path and nowhere else |
| `Trees.InsertDir` | src/repo/ephemeral.rs:79-86 | and adds exactly the directories on its way |
| `Trees.BuildDir` | src/repo/ephemeral.rs:65-68 | the in-memory directory holds the files and the directories they need, nothing else |
| `Trees.StoreDir` | src/repo/ephemeral.rs:89-99 | the stored trees represent the directory, a directory hiding a file of its name; the store only grows |
| `Trees.RepresentsAt` | src/repo/ephemeral.rs:89-99 | looking a path up in stored trees and in the directory agrees |
| `Walks.AlongVisited` | src/repo/ephemeral.rs:115-139 | the recursive walk meets every directory chain |
| `Walks.VisitedAlong` | src/repo/ephemeral.rs:115-139 | and nothing else, each with its joined path and depth |
| `Walks.PendingPop` | src/repo/mod.rs:1293-1319 | replacing the top of the stack by its directories is one step of that walk |
| `Walks.WalkMapWalked` | src/repo/mod.rs:1283-1322 | the walk's map holds exactly the shown paths some file is known by, each with such a file's blob |
| `RoundTrips.BuildTree` | src/repo/ephemeral.rs:61-70 | what the stored trees say of every path of the flat map |
| `Walks.WalkTree` | src/repo/ephemeral.rs:115-139 | the map of the recursive walk, last writers included, for any names; an error, naming it, exactly when a tree is missing |
| `Walks.WalkTreeFiltered` | src/repo/mod.rs:1283-1322 | the same restricted to visible paths, missing trees skipped; an error exactly when a chain of directories is too deep |
| `RoundTrips.RoundTrip` | src/repo/ephemeral.rs:61-139 | build then walk restores the map if and only if it is prefix-free without leading separators |
| `RoundTrips.BuiltDepth` | src/repo/mod.rs:1272-1296 | the bounded walk of a built tree fails exactly when some path has more than 256 segments |
| `Walks.FilteredIsRestricted` | src/repo/mod.rs:1283-1322 | for any trees the filtered walk is the full path map restricted to visible paths, blob for blob |
| `Walks.PrivilegedWalk` | src/repo/mod.rs:957-973 | under two-point labels the privileged walk is the full path map |
| `Walks.ExplainAt` | src/repo/mod.rs:689-782 | under two-point labels a path is explained as present and readable exactly when the accessor's own walk shows it |
| `RoundTrips.BuildAndWalk` | src/repo/ephemeral.rs:61-139 | the round trip through both walkers, end to end |
| `Hooks.TimelinePolicyCheck` | src/acl/hook.rs:215-250 | an unrestricted timeline always, any other exactly when the new head descends from the old; no such timeline is a denial with the reason that applies |
| `Hooks.Registry` | src/repo/mod.rs:269-283 | exactly the hooks configured here and those of the pinned policy root; fails exactly on a malformed pin, a missing root or an unknown kind |
| `Hooks.Evaluate` | src/acl/hook.rs:94-158 | the first verdict of the highest rank, in the order the hooks are asked |
| `Hooks.AllowedByAll` | src/acl/hook.rs:94-158 | which is Allow exactly when the built-in rule and every hook allow, and Deny exactly when one denies |
| `Advance.CheckOffer` | src/repo/mod.rs:812-853 | the offered snapshot passes exactly when timeline and every file may be written |
| `Advance.TimelineWriteMeans` | src/repo/mod.rs:812-826 | moving a timeline takes a write clearance bearing on the timeline's name and dominating the label the timeline rules give it |
| `Advance.CheckRemoved` | src/repo/mod.rs:870-889 | passes exactly when every path that would disappear may be written |
| `Advance.CheckPolicy` | src/repo/mod.rs:890-916 | passes exactly when the registry resolves and allows |
| `Advance.TimelineRepository.AdvanceTimelineExpecting` | src/repo/mod.rs:805-926 | alone, an advance moves the head exactly when all checks allow; otherwise nothing changes and the error states which check failed, a tag at the name before any other |
| `AdvanceRuns.AdvanceIsRun` | src/repo/mod.rs:805-926 | every advance it lets through is a run of the interleaving model, from the refs found to the refs left |
| `AdvanceRuns.LetThrough` | src/repo/mod.rs:805-926 | it lets through exactly what passes the guards of the model's steps, the bound hooks and the expected head |
| `AdvanceRuns.HeadsDescend` | src/repo/mod.rs:855-926 | in every interleaving on a fast-forward or append timeline each head descends from every earlier one |
| `AdvanceRuns.NoRewind` | src/acl/hook.rs:215-250 | what the ref holds later descends from what it held before |
| `AdvanceRuns.OneMoveOff` | src/refs/transaction.rs:180-195 | from each old head at most one commit moves the timeline |
| `AdvanceRuns.NeverStale` | src/repo/mod.rs:858-869 | an advance bound to an expected head never lands on another |
| `AdvanceRuns.EveryChangeWritable` | src/repo/mod.rs:812-926 | every path that is not blob for blob the same in consecutive heads, whatever the names in their trees, was writable by the accessor that committed the step |
| `AdvanceRuns.WalkFinds` | src/repo/mod.rs:957-973 | the enforcement walk finds exactly the files of a fully stored snapshot |
| `Authority.ChainOf` | src/acl/authority.rs:178-193 | the lineage of a tip, or an error exactly when there is none; the error is a missing root or a repetition on the way |
| `Authority.ChainUnique` | src/acl/authority.rs:178-193 | a tip has one lineage |
| `Authority.ChainDistinct` | src/acl/authority.rs:178-193 | a lineage never repeats |
| `Authority.VerifyChain` | src/acl/authority.rs:200-237 | accepts exactly the tips whose whole lineage is sound; a rejection states a fact |
| `Authority.AcceptedMeans` | src/acl/authority.rs:200-237 | accepted is exactly a complete lineage whose every root has its lattice and rules stored, known hooks only, and a valid signature |
| `Authority.SignatureMeans` | src/acl/authority.rs:142-161 | a signature counts exactly when it is over this root and verifies under the first listed anchor of its key |
| `Authority.AcceptanceInherited` | src/acl/authority.rs:200-237 | every ancestor of an accepted tip is accepted |
| `Authority.Reconcile` | src/acl/authority.rs:256-287 | errors name the first unverified candidate; of two verified tips the one whose lineage holds the other wins, and they diverge exactly when neither does |
| `Authority.LongerWins` | src/acl/authority.rs:256-287 | the winner is the tip whose lineage holds the other, and its lineage is the longer |
| `Authority.PreferenceMirrors` | src/acl/authority.rs:256-287 | for distinct tips left one way is right the other way |
| `Authority.PreferenceTransitive` | src/acl/authority.rs:256-287 | winning is transitive |
| `Adoption.CheckPin` | src/repo/mod.rs:338-357 | passes exactly when there is no pin or the pin is a tag on the lineage of the offered tip |
| `Adoption.WinnerMayReplace` | src/acl/authority.rs:256-287 | the winner of a reconciliation may replace the loser's pin, never the other way; diverged tips may not replace each other |
| `Adoption.PolicyRepository.AdoptPolicyRoot` | src/repo/mod.rs:323-364 | alone, the pin becomes a tag at the tip exactly when the chain is accepted and the current pin may be replaced |
| `Adoption.AdoptionIsRun` | src/repo/mod.rs:323-364 | every adoption that succeeds alone is a run of the interleaving model, from the refs found to the refs left |
| `Adoption.SwapEffect` | src/repo/mod.rs:358-362 | the swap succeeds exactly when the pin is what was read |
| `Adoption.AdoptionSafe` | src/repo/mod.rs:323-364 | in every interleaving every pin was verified and every earlier pin lies on the chain of every later one |
| `Adoption.NoRollback` | src/repo/mod.rs:323-364 | what the ref pinned before lies on the chain of what it pins later |

## Left out

- Cryptography, encodings, the pack frame format and git object encoding: objects stand for their bytes and signature checks are parameters.
- HTTP API, command line, audit records, petnames, boards, proposals and records: store-and-pin code without deep invariants.
- `rank_strangers_multi`, `vouch_suggestions`, `Index` and `gather`: would add easy members.
- I/O errors other than a crash, refs that are both file and directory, several processes over one store, and unlocked single-ref writes during a commit.
- Trees.Insert: the nested directory maps are edited as values; update in place and aliasing are not captured.
- Trees.StoreDir: the file entries of a directory are built by a map comprehension where the code inserts them in a loop.
- Walks.WalkTreeFiltered: acyclic nesting is assumed although the depth bound alone would stop the walk.
- Relay.ShortSighted: keys are unbounded numbers, so unused keys always exist.
- The lowering of roles into rules and clearances by `with_path_role` and `with_timeline_role`, and the unreachable-object count.
- Verdicts of signed-approval hooks are given, not computed.
- AdvanceRuns.HeadsDescend: nothing else writes the timeline's ref during the run; each check reads the store at one moment.
- AdvanceRuns.EveryChangeWritable: objects are only added during the run, all trees are stored and labels are two-point.
- Adoption.AdoptionSafe: the pin is written by adoptions alone; the local override `set_policy_root` is outside the run.
- Keeping a policy root's lattice, rules and parent objects through garbage collection, and nearest common ancestors on arbitrary merge histories: the code does not provide them.
