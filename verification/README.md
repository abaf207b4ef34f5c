# DiscoPanel, modelled and proved in Dafny

DiscoPanel runs Minecraft servers and helper modules in containers. This project models the parts of
it that decide something, and proves what they are for:

* `EditDistance`, `StrMatch` - the fuzzy matcher: the two-row Levenshtein loop returns the least
  number of edits, the containment search finds the leftmost best-bounded occurrence, and a score of
  1 means an exact match.
* `AliasTree`, `AliasSubstitute`, `AliasTemplate` - the alias engine: the walker that lists
  `{{a.b.c}}` aliases and the walker that resolves them agree, a loop that rewrites the leftmost
  reference again and again ends exactly when no chain of references runs in a circle, and all loops
  together replace every reference by its own meaning.
* `ModuleStarter`, `ModuleRecursion` - three mutually recursive operations over a store of modules that
  keep the set of Running modules closed under dependencies and start containers in topological order,
  and the exact condition under which their recursion ends.
* `Lifecycle` - the detector that turns poll samples into join, leave and healthy events, over whole runs.
* `VarInt`, `Handshake`, `WireFormat`, `ProxyRouting` - the VarInt and Handshake wire formats of the
  Minecraft Java Edition protocol, in both the proxy's and the status client's version, the numbers and
  fields that their bytes stand for, and the proxy's routing and address rewrite.
* `Properties` - the `server.properties` reader and the writer that edits a text in place.
* `Ports` - host port allocation and conflict rules for modules, over all runs of requests.
* `Upload` - chunks in any order and streams resumed after being cut off, assembled in one file.
* `Backups` - the two deletion policies over the backups of a directory.

`GoStrings` holds the few functions of Go's `strings` package these build on, `Common` an option type
and a lemma on sizes of sets. Docker, the database,
sockets and the clock appear as oracles (methods that may answer anything), maps, byte sequences or
parameters; operations run one after the other.

Loops and objects that the program updates in place are methods and classes here, each proved equal
to a specification function or predicate; the theorems are about those. Every lemma switches automatic
induction off, so its body is its proof. `dafny verify dfyconfig.toml` checks everything.

## Where the code differs from its documentation or falls short

The model follows the code. These points are theorems or visible in the contracts:

* `FindAvailableListenerPort` says it avoids ports of non-proxied modules; since it asks for a direct
  binding, a proxied TCP port of a module is avoided, too (`Ports.FindAvailableListenerPort`).
* `CheckPortAvailability` says proxied TCP ports can be shared under different hostnames; the hostname
  is never looked at (`Ports.CheckPortAvailability`), so they can be shared under the same one. When
  the check agrees with its comment is `Ports.MeetsCommentIff`, when it accepts a second module of the
  same hostname `Ports.SameHostnameAcceptedIff`, and a run that does `Ports.TwoModulesOneHostname`.
* One create request can hold two entries that clash with each other: only other modules are checked.
  Exactly when is decided by the request and the free ports (`Ports.RequestClashesWithItselfIff`).
* Saving twice equals saving once exactly when no property holds a newline or a key that cannot be
  read back, and no kept line ends in a second carriage return (`Properties.SaveTwice`); loading after
  saving is map override exactly for well-formed properties (`Properties.LoadAfterSave`).
* Alias values may hold aliases. A rewrite loop ends exactly when the chains of references it meets do
  not run in a circle, and then makes the recursive expansion (`AliasTemplate.LoopEndsIffNoCycle`,
  `AliasTemplate.SubstituteExpands`), which is decided by the texts of the context alone when these are
  templates (`AliasTemplate.ContextExpands`); a value that is its own alias is the smallest circle
  (`AliasTemplate.SelfReferenceStandsStill`).
* Where siblings share a name, all aliases resolve to what they were listed with exactly when the first
  namesake says what the later ones say (`AliasTree.AllResolveIffShadowsAgree`).
* The proxy's VarInt writer ends exactly on non-negative values (`VarInt.ExitIffNonNegative`); on others
  it adds a byte every round (`VarInt.NegativeFillsBuffer`). The handshake is put together in memory, so a
  client that sends a negative version or next state to a routed hostname makes the process take memory
  until it dies (`Handshake.UnwritableFillsMemory`).
* The handshake reader makes a buffer of the announced address length before it checks it. A negative
  one is a run-time panic that nothing recovers from (`Handshake.CrashesIffNegativeLength`). These two
  are all that ends the process, for every byte string a client can send (`ProxyRouting.ProcessEndsIff`).
* Create and update requests store dependencies unchecked (internal/rpc/services/module.go:625, 779-781),
  so they may run in circles. With nothing refused a start ends exactly when no chain of modules that
  wait for each other does (`ModuleRecursion.EndsIffNoCircle`): two modules that depend on each other
  start when one of them is Running, and when neither is the recursion has no end
  (`ModuleRecursion.PairEndsIff`).
* Starting a Running module whose container is already up is a restart: when it is refused, modules
  that depend on it are left Running without it (`ModuleStarter.ClosureExactly`, `ModuleStarter.StartRequest`).
* An upload needs fewer than 2^31 chunks; beyond that the announced number is truncated
  (`Upload.ChunkCountExact`). A chunk size of zero is divided by (`Upload.InitSession`). With a negative
  one only the first chunk can be written; at most two are announced (`Upload.NegativeChunkSize`), unless
  the quotient wraps around (`Upload.NegativeChunkSizeWraps`). The only caller passes neither: it replaces
  sizes of zero and below by the configured default (internal/rpc/services/upload.go:51-53). A stream
  attempt that starts beyond what was received leaves a gap (`Upload.GapIsNotFilled`).

## Model

| member | source | states |
|---|---|---|
| `EditDistance.Levenshtein` | pkg/strmatch/strmatch.go:198-224 | the loop over two swapped rows returns the corner of the full dynamic-programming table |
| `EditDistance.DistanceIsMinimum` | pkg/strmatch/strmatch.go:198-224 | some sequence of single-rune edits from a to b has exactly that length and none is shorter |
| `EditDistance.NoCheaperRewriting` | pkg/strmatch/strmatch.go:198-224 | every sequence of edits, at any positions and through any intermediate texts, is at least as long as the distance |
| `EditDistance.CheapestRewriting` | pkg/strmatch/strmatch.go:213-219 | for every table entry there is a rewriting of the two prefixes with exactly that many edits |
| `EditDistance.DistanceIsMetric` | pkg/strmatch/strmatch.go:198-224 | zero iff equal, symmetric, triangle inequality, at most the longer length |
| `EditDistance.CellTriangle` | pkg/strmatch/strmatch.go:213-219 | the triangle inequality for all prefixes |
| `StrMatch.Runes` | pkg/strmatch/strmatch.go:199 | a byte string never decodes into more runes than it has bytes |
| `StrMatch.RunesOfEncoded` | pkg/strmatch/strmatch.go:199 | decoding gives back every sequence of Unicode scalar values from its UTF-8 bytes |
| `StrMatch.BestContainmentIndex` | pkg/strmatch/strmatch.go:112-136 | the early-exit search over overlapping occurrences returns the leftmost among those with most token boundaries, or -1 when there is none |
| `StrMatch.BestIndex` | pkg/strmatch/strmatch.go:112-136 | the specification used in the score meets the same condition, which has only one solution |
| `StrMatch.BestIndexIsUnique` | pkg/strmatch/strmatch.go:112-136 | that condition determines the index |
| `StrMatch.ComputeTokenScore` | pkg/strmatch/strmatch.go:139-156 | the counting loop yields the share of candidate tokens found in the query |
| `StrMatch.TokenScoreCounts` | pkg/strmatch/strmatch.go:139-156 | the score is 0.50 plus 0.45 times the share of positions whose token stands in the query, zero when there is none |
| `StrMatch.TokensAreMaximalRuns` | pkg/strmatch/strmatch.go:179-183 | the tokens are the texts of the maximal runs of token runes: all of them, in order |
| `StrMatch.TokenBand` | pkg/strmatch/strmatch.go:139-156 | zero iff no candidate token occurs in the query, else in (0.50, 0.95], with 0.95 iff all of them do |
| `StrMatch.EditBand` | pkg/strmatch/strmatch.go:159-172 | the score stays in [0, 0.60] although bytes divide a rune distance, is never cut off at zero, and reaches 0.60 iff the runes are equal |
| `StrMatch.ContainmentBand` | pkg/strmatch/strmatch.go:85-109 | the clamp never bites: the score is 0.50 plus 0.40 times the ratio, 0.07 more between two token boundaries and 0.15 less at none; above 0.35 and at most 0.97 |
| `StrMatch.ContainmentCases` | pkg/strmatch/strmatch.go:85-109 | the shorter text scores at its best occurrence in the longer one, whichever is the query; zero iff neither contains the other |
| `StrMatch.ContainmentBelowExact` | pkg/strmatch/strmatch.go:85-109 | for different texts the containment score is below 0.97 |
| `StrMatch.WholeTokenBeatsItsSubstrings` | pkg/strmatch/strmatch.go:85-136 | a candidate that occurs on token boundaries scores strictly above, on containment, each of its proper substrings, whichever side is the query |
| `StrMatch.ComputeScore` | pkg/strmatch/strmatch.go:30-48 | the sequence of guarded maxima computes the score |
| `StrMatch.ScoreIsBestBand` | pkg/strmatch/strmatch.go:30-48 | zero for an empty text; for different texts the score is at least each of the three bands and equals one of them |
| `StrMatch.AllTokensScoreHigh` | pkg/strmatch/strmatch.go:30-48 | by tokens alone: at least 0.95 when the candidate has tokens and the query has them all, above 0.50 when it has one of them |
| `StrMatch.ScoreOneIffExact` | pkg/strmatch/strmatch.go:30-48 | 1 iff the normalised texts are equal and not empty; every other score is in [0, 0.97) |
| `StrMatch.Best` | pkg/strmatch/strmatch.go:51-62 | the first candidate of highest score, its index and its score; nothing iff there are no candidates |
| `StrMatch.BestAbove` | pkg/strmatch/strmatch.go:65-71 | finds the first best candidate iff some candidate reaches the minimum |
| `StrMatch.BestFunc` | pkg/strmatch/strmatch.go:74-82 | the first item of highest score under its key, and that score |
| `StrMatch.FirstBestIsFirstExact` | pkg/strmatch/strmatch.go:51-82 | whenever an exact match exists the first best is the first exact match |
| `AliasTree.FieldByTag` | internal/alias/alias.go:439-456 | the value of the first field whose tag carries the name, nothing iff there is no such field |
| `AliasTree.ElemByName` | internal/alias/alias.go:405-424 | the first struct element with that name |
| `AliasTree.ReachedIsEmitted` | internal/alias/alias.go:161-220 | every leaf that visible fields and listed elements lead to is listed under the dotted form of its names with its own text |
| `AliasTree.EmittedIsReached` | internal/alias/alias.go:161-220 | nothing else is listed |
| `AliasTree.ReachedResolves` | internal/alias/alias.go:387-436 | with dot-free names that are first of their kind, following the names of a leaf resolves to its text |
| `AliasTree.EmittedAliasResolves` | internal/alias/alias.go:161-268 | splitting a listed path after its prefix and resolving it yields the listed value, through pointers, structs and slices |
| `AliasTree.FieldPathResolvesByFirst` | internal/alias/alias.go:387-456 | a path through any enumerated field resolves as its rest inside the first tagged field of that name |
| `AliasTree.ElementPathResolvesByFirst` | internal/alias/alias.go:404-424 | a path through any listed element resolves as its rest inside the first element of that name |
| `AliasTree.ResolvesIffShadowsAgree` | internal/alias/alias.go:387-456 | following names gives the text of the leaf they lead to iff, wherever a name repeats, the first namesake gives the text of the later ones |
| `AliasTree.AllResolveIffShadowsAgree` | internal/alias/alias.go:161-456 | for any value with dot-free names, all listed aliases resolve to their listed values under that same condition and no other |
| `AliasTree.ShadowedElementDoesNotResolve` | internal/alias/alias.go:405-424 | an instance: the second of two equally named elements is listed with its own value and resolves to the first's |
| `AliasSubstitute.SubstituteNestedPaths` | internal/alias/alias.go:353-384 | on every input and value on which replacing the leftmost reference comes to an end, the loop ends there; its break for short paths is not needed |
| `AliasSubstitute.FillDropsBraces` | internal/alias/alias.go:381 | the termination measure: each replacement lowers the number of braces |
| `AliasSubstitute.BraceFreeAnswersEnd` | internal/alias/alias.go:353-384 | when the answers the loop asks for hold no brace it ends on every text, within as many rounds as there are braces |
| `AliasSubstitute.PlainValueEnds` | internal/alias/alias.go:353-384 | so it ends on every text for a value without braces |
| `AliasSubstitute.PlainModulesEnd` | internal/alias/alias.go:459-497 | and so does the module loop for siblings without braces |
| `AliasSubstitute.RewriteLeavesNoReference` | internal/alias/alias.go:353-384 | whenever the loop ends, no opening of that prefix is followed by closing braces |
| `AliasSubstitute.ReplaceHitsLeftmost` | internal/alias/alias.go:381 | replacing the first textual occurrence of the alias hits exactly the reference that was found |
| `AliasSubstitute.PathIsLong` | internal/alias/alias.go:373-376 | a reference's path has more segments than its prefix, so the short-path break is never taken |
| `AliasSubstitute.SubstituteModuleReferences` | internal/alias/alias.go:459-497 | the same for module references, the unresolvable ones being deleted |
| `AliasSubstitute.ModuleReferenceMeans` | internal/alias/alias.go:474-526 | `modules.name.field` stands for that field of that module, or where it is empty for the container name (host) or the first port, 8081 without one (port); nothing for an unknown module |
| `AliasSubstitute.ItoaIsDecimal` | internal/alias/alias.go:518-520 | the port is written in decimal digits without leading zeros |
| `AliasTemplate.LoopEndsIffNoCycle` | internal/alias/alias.go:353-384 | on a template whose answers are templates one loop ends iff no chain of references that starts in it runs in a circle, and its result is the recursive expansion |
| `AliasTemplate.ValueLoopEndsIffNoCycle` | internal/alias/alias.go:353-384 | for a source all of whose texts are templates: its loop ends iff following references from the template through the texts they resolve to never comes back to a path |
| `AliasTemplate.SettlesIffNoCircle` | internal/alias/alias.go:353-384 | no circle iff the answers are nested no deeper than there are answers |
| `AliasTemplate.LoopExpands` | internal/alias/alias.go:353-384 | for finitely nested answers, how many rounds the loop takes and what it makes |
| `AliasTemplate.LoopSettles` | internal/alias/alias.go:353-384 | a loop that ends in n rounds met answers nested at most n deep |
| `AliasTemplate.RewriteIsSimultaneous` | internal/alias/alias.go:353-384 | when the answers used open no reference, one loop fills all references of its prefix at once and touches nothing else |
| `AliasTemplate.Substitute` | internal/alias/alias.go:314-350 | whenever every stage ends: the stages run longest prefix first, each skipped when its source is missing, the module stage last; the early exit changes nothing |
| `AliasTemplate.ServerAnswers` | internal/alias/alias.go:329-346 | `{{server.config.x}}` becomes what the server config says when there is one; every other reference under `server.`, and those too when there is none, what the server says |
| `AliasTemplate.WhoAnswers` | internal/alias/alias.go:329-346 | a reference under `host.`, `config.` or `module.` becomes what the host, the configuration or the owning module says |
| `AliasTemplate.WhoElseAnswers` | internal/alias/alias.go:340-348 | one under `modules.` becomes what the siblings say; one that belongs to no present part of the context stays as written |
| `AliasTemplate.SubstituteExpands` | internal/alias/alias.go:314-350 | on a template the engine ends iff no stage meets a circle, and then replaces every segment by its own meaning, all at once |
| `AliasTemplate.ContextExpands` | internal/alias/alias.go:314-350 | the same from the context alone: when all texts of the present sources and sibling modules are templates, the answers every loop meets exist and are read off them |
| `AliasTemplate.SubstituteIsSimultaneous` | internal/alias/alias.go:314-350 | on a template whose own answers open no reference the engine is one substitution by the first source that claims each reference; other values may hold anything |
| `AliasTemplate.ListedAliasSubstitutes` | internal/alias/alias.go:161-350 | an alias that the lister offers, put between braces, is replaced by the example value it was offered with, whatever the rest of the context holds |
| `AliasTemplate.SelfReferenceStandsStill` | internal/alias/alias.go:359-382 | the smallest circle: a value that is its own alias is left unchanged by a round, and the loop does not end |
| `ModuleStarter.AcyclicIffRanked` | internal/module/manager.go:284-328 | no dependency cycle iff some rank falls along every edge, in particular the number of modules below |
| `ModuleStarter.NoCircleIffRanked` | internal/module/manager.go:284-328 | no chain of modules that wait for each other runs in a circle iff some rank falls along every edge into a module that is not Running |
| `ModuleStarter.Manager.StartModule` | internal/module/manager.go:168-241 | it succeeds iff nothing it asked was refused; whatever is answered, only modules it waits for change, each is started at most once and only with all its dependencies Running, after its container was seen and after every dependency marked so was found healthy while Running, in this call; the closure holds except possibly for the module itself, success means Running, and a refused start leaves Error |
| `ModuleStarter.Manager.StartContainerOf` | internal/module/manager.go:195-220 | its last part, once the dependencies are Running and were waited for: the module is saved as Starting before and Running after its container starts, or as Error when that is refused |
| `ModuleStarter.Manager.CreateAndStartModule` | internal/module/manager.go:107-165 | the same for creating the container first, after template and server were found; success leaves the new container, without immediate start nothing is started and the module is Stopped with it |
| `ModuleStarter.Manager.CreateContainerOf` | internal/module/manager.go:123-152 | the middle of it: Creating, then Stopped with the created container, or Error when none can be created |
| `ModuleStarter.Manager.StartDependencies` | internal/module/manager.go:284-328 | Running modules and the module itself stay untouched; it succeeds iff nothing was refused, and then every direct dependency is Running and every one marked so was found healthy while Running |
| `ModuleStarter.Manager.StartDependency` | internal/module/manager.go:289-325 | the same for one dependency: success with a wait for health leaves a positive answer given while it was Running |
| `ModuleStarter.ClosureExactly` | internal/module/manager.go:168-241 | after a call the closure holds iff the module is Running or nothing Running depended on it before |
| `ModuleStarter.ClosedMeansTransitive` | internal/module/manager.go:284-328 | in a closed store everything a Running module transitively depends on is Running |
| `ModuleStarter.StartedExactly` | internal/module/manager.go:168-328 | after a successful start exactly those modules are Running that were before or that the started one waited for |
| `ModuleStarter.StartRequest` | internal/rpc/services/module.go:875-900 | from a closed store in which the module waits for no circle, the request succeeds iff nothing was refused, and then exactly what was Running or waited for is Running and the store closed; a failed one keeps the closure unless something Running depended on the module; every start came after the checks above |
| `ModuleRecursion.EndsIffNoCircle` | internal/module/manager.go:168-328 | with nothing refused and every container found, starting a module ends iff no chain of dependency edges from it, all modules after the first not Running, returns to where it has been |
| `ModuleRecursion.AllEndIffAcyclic` | internal/module/manager.go:284-328 | when nothing is Running every start ends iff the stored dependencies form no cycle |
| `ModuleRecursion.CircleNeverEnds` | internal/module/manager.go:284-328 | such a chain makes the recursion exceed every depth |
| `ModuleRecursion.RankedEnds` | internal/module/manager.go:284-328 | a rank that falls along edges into modules that are not Running bounds the depth of the recursion |
| `ModuleRecursion.LeavesWaitedForRunning` | internal/module/manager.go:168-328 | where it ends, exactly the modules that were Running or waited for are Running |
| `ModuleRecursion.PairEndsIff` | internal/rpc/services/module.go:779-781 | two modules that depend on each other: starting one ends iff one of them is Running already |
| `Lifecycle.Roster` | internal/metrics/collector.go:614-629 | a roster is known iff at least as many names as players were sampled, and then holds the non-empty names |
| `Lifecycle.Collector.SetLifecycle` | internal/metrics/collector.go:638-642 | stores one baseline and leaves the others |
| `Lifecycle.Collector.ClearLifecycle` | internal/metrics/collector.go:644-648 | forgets one baseline and leaves the others |
| `Lifecycle.Collector.Emit` | internal/metrics/collector.go:606-611 | appends one event for its server |
| `Lifecycle.Collector.Detect` | internal/metrics/collector.go:536-602 | for one server: which events are emitted, the new baseline, every other server untouched |
| `Lifecycle.BaselineByStatus` | internal/metrics/collector.go:536-602 | what docker's answer does to a baseline: forgotten iff there is no answer or the container is down; health and roster by status and names |
| `Lifecycle.EventsByStatus` | internal/metrics/collector.go:552-598 | which events a sample emits, each once, by status, names and baseline; none on a first sighting or while not healthy |
| `Lifecycle.DetectLifecycleEvents` | internal/metrics/collector.go:527-603 | one poll makes the history of every server go on by exactly the samples it takes of that server, and the histories explain all baselines and the whole bus |
| `Lifecycle.RemoveMetrics` | internal/metrics/collector.go:404-409 | a deleted server: its metrics and baseline go, and its history goes on by a reset |
| `Lifecycle.Run` | internal/metrics/collector.go:527-603 | any run of polls, metric updates and removals: every history is what was observed of its server, the statuses as polled and the metrics as cached then |
| `Lifecycle.RunFromStart` | internal/metrics/collector.go:527-603 | from an empty collector, after any run and for every server: the joins and leaves on the bus are the differences of the rosters polled between two sightings of it down, and SERVER_HEALTHY stands on it once per polled edge between them |
| `Lifecycle.BusSinceReset` | internal/metrics/collector.go:536-602 | what the bus holds of a server since it was last seen down follows the same laws |
| `Lifecycle.RunEmitsCalled` | internal/metrics/collector.go:527-603 | any run, resets included, emits what its samples alone call for: the laws below applied between every two resets |
| `Lifecycle.EventsAreRosterDifferences` | internal/metrics/collector.go:558-602 | between resets a player's joins and leaves are exactly the membership changes along the recorded rosters, in order |
| `Lifecycle.PlayerEventsAlternate` | internal/metrics/collector.go:558-602 | a player's events strictly alternate, beginning with the move away from the first recorded roster |
| `Lifecycle.StoredRoster` | internal/metrics/collector.go:527-603 | the stored roster is the last recorded one, unknown while there is none |
| `Lifecycle.ReplayGivesStoredRoster` | internal/metrics/collector.go:558-602 | applying all events to the first recorded roster gives the stored one |
| `Lifecycle.SilentSamplesAreTransparent` | internal/metrics/collector.go:565-580 | leaving out a sample with an unknown roster or an unhealthy one does not change any player's events |
| `Lifecycle.HealthyOncePerEdge` | internal/metrics/collector.go:552-575 | SERVER_HEALTHY is emitted once per observed edge from not healthy to healthy and never on a baseline |
| `Lifecycle.ResetStartsOver` | internal/metrics/collector.go:536-556 | after a reset the rest of a run is a run from scratch, so the theorems apply to it |
| `VarInt.SlpWriteVarInt` | internal/minecraft/slp.go:291-301 | the status client's loop appends the encoding, for every int32 |
| `VarInt.ReadLoop` | internal/minecraft/slp.go:303-331 | the reader's loop (the proxy's is the same) equals the recursive decoder, errors and unread rest included |
| `VarInt.RoundTrip` | internal/minecraft/slp.go:291-331 | reading a written VarInt, followed by anything, returns the value and exactly what followed, for every int32 |
| `VarInt.SelfDelimiting` | internal/minecraft/slp.go:291-301 | if two encodings with tails agree, values and tails agree |
| `VarInt.OneToFiveBytes` | internal/minecraft/slp.go:291-301 | every encoding takes one to five bytes |
| `VarInt.ReaderVerdict` | internal/proxy/protocol.go:14-44 | the reader succeeds iff one of the first five bytes announces no further one; which error it gives otherwise, and what it leaves unread |
| `WireFormat.EncodingIsBase128` | internal/minecraft/slp.go:291-301 | an encoding is its value as an unsigned number to the base 128, lowest digit first, and every byte but the last announces a further one |
| `WireFormat.ReadIsBase128` | internal/proxy/protocol.go:14-44 | whatever is read, shortest form or not, is the number to the base 128 that the consumed bytes stand for, cut to 32 bits |
| `VarInt.EncodingsAreCanonical` | internal/minecraft/slp.go:291-301 | a byte string is somebody's encoding iff it is the shortest form without bits beyond the 32nd |
| `VarInt.RewritesIffCanonical` | internal/proxy/protocol.go:14-59 | writing back what was read restores the consumed bytes iff they were canonical |
| `VarInt.ProxyWriteVarInt` | internal/proxy/protocol.go:47-59 | with the arithmetic shift, non-negative values get the same bytes |
| `VarInt.Len` | internal/proxy/protocol.go:62-73 | for non-negative values the announced length is the number of bytes written |
| `VarInt.ExitIffNonNegative` | internal/proxy/protocol.go:50-57 | the exit of the proxy's writer is ever reached iff the value is non-negative |
| `VarInt.NegativeFillsBuffer` | internal/proxy/protocol.go:47-59 | on a negative value the writer has after n rounds added n bytes and is still writing a negative value |
| `Handshake.WriteHandshakePacket` | internal/proxy/protocol.go:149-187 | writes the length-prefixed payload after what was there |
| `Handshake.SendHandshake` | internal/minecraft/slp.go:128-150 | the status client sends the same format, for any version, with next state 1 |
| `Handshake.ReadHandshakePacket` | internal/proxy/protocol.go:84-146 | the sequential reader equals the composed parser, with the error of every step |
| `WireFormat.AcceptsIffFramed` | internal/proxy/protocol.go:84-146 | exactly those streams are accepted that start with a frame of 1 to 255 bytes holding ID 0, version, address after its length, port with the high byte first and next state, in this order; the packet has these fields |
| `WireFormat.PayloadIsWritten` | internal/proxy/protocol.go:149-187 | the printed payload holds the fields in that order, each VarInt in its shortest form |
| `WireFormat.PortIsBigEndian` | internal/proxy/protocol.go:171 | the two bytes before the next state are the port, high byte first |
| `Handshake.LengthRoundTrip` | internal/proxy/protocol.go:149-187 | a length below 2^31 survives the conversion to a VarInt and back |
| `Handshake.LengthCheck` | internal/proxy/protocol.go:91-93 | the reader's signed length check accepts exactly lengths from 1 to 255 |
| `Handshake.PayloadRoundTrip` | internal/proxy/protocol.go:84-187 | parsing a printed payload returns the packet and leaves nothing |
| `Handshake.HandshakeRoundTrip` | internal/proxy/protocol.go:84-187 | reading a written packet followed by anything returns it and leaves exactly that iff the payload has at most 255 bytes, and is refused for its length otherwise |
| `Handshake.CrashesIffNegativeLength` | internal/proxy/protocol.go:84-131 | the reader crashes iff the stream starts with a complete frame of 1 to 255 bytes that holds packet ID 0, any version and a negative address length |
| `Handshake.MinusOneCrashes` | internal/proxy/protocol.go:123-131 | such a packet, followed by anything |
| `Handshake.UnwritableFillsMemory` | internal/proxy/protocol.go:149-187 | with a negative version or next state the packet in memory has grown by n bytes after n rounds and is never finished |
| `ProxyRouting.RewriteKeepsTail` | internal/proxy/minecraft.go:208-227 | the rewrite replaces the host part only: every byte from the first NUL onward is kept |
| `ProxyRouting.HostnameOfAddress` | internal/proxy/minecraft.go:175-179 | an address of a host, followed by a port or by NUL-separated data, asks for the lower-cased host |
| `ProxyRouting.KeyOfHostname` | internal/proxy/minecraft.go:41-48 | a configured hostname is stored under its lower-cased host part, whatever port follows |
| `ProxyRouting.MinecraftProxy.AddRoute` | internal/proxy/minecraft.go:41-56 | stores an active route under its key and leaves the others |
| `ProxyRouting.MinecraftProxy.RemoveRoute` | internal/proxy/minecraft.go:59-67 | removes that key only |
| `ProxyRouting.MinecraftProxy.UpdateRoute` | internal/proxy/minecraft.go:70-80 | changes the backend of an existing route, never adds one |
| `ProxyRouting.MinecraftProxy.SetRouteActive` | internal/proxy/minecraft.go:83-92 | changes the active flag of an existing route, never adds one |
| `ProxyRouting.MinecraftProxy.HandleConnection` | internal/proxy/minecraft.go:158-233 | what a client's bytes lead to: dropped, forwarded to a backend with a rewritten handshake and the unread rest, a panic in the reader, or a packet that fills the memory |
| `ProxyRouting.ForwardedIff` | internal/proxy/minecraft.go:158-233 | for every byte string: forwarded iff it starts with a handshake for an active route that can be dialed, with version and next state not negative, and then to that route's backend with only host part and port changed; dropped in every other case that does not end the process |
| `ProxyRouting.PanicsIffNegativeLength` | internal/proxy/minecraft.go:166-171 | the reader panics iff the bytes start with such a frame, whatever is routed |
| `ProxyRouting.ProcessEndsIff` | internal/proxy/minecraft.go:158-233 | for every byte string a client sends the process ends iff the bytes announce a negative address length, or hold a handshake, however encoded, with a negative version or next state for an active route that can be reached |
| `ProxyRouting.FillsMemoryIffUnwritable` | internal/proxy/minecraft.go:208-233 | for a written handshake the process ends iff its host is routed and reachable and its version or next state is negative |
| `ProxyRouting.ClientReachesBackend` | internal/proxy/minecraft.go:158-233 | a written handshake for an active route reaches that route's backend with only host part and port changed and the following bytes untouched, and the backend can read it if it still fits |
| `Properties.LoadServerProperties` | internal/minecraft/properties.go:16-50 | the line loop yields the map in which later lines override earlier ones |
| `Properties.ParseIff` | internal/minecraft/properties.go:28-42 | a line sets a key iff, without the space around it, it does not start with # and holds an equals sign; key and value stand before and after the first one, without the space around each |
| `Properties.LastLineWins` | internal/minecraft/properties.go:28-42 | a key has the value of the last line that sets it and is missing when none does |
| `Properties.LinesMakeText` | internal/minecraft/properties.go:26-29 | the lines put together again are the text, up to a final newline |
| `Properties.SaveServerProperties` | internal/minecraft/properties.go:53-118 | the line loop rewrites the lines of saved keys in place and appends each new key once, in some order |
| `Properties.LineCases` | internal/minecraft/properties.go:85-107 | the writer's branches decide exactly what the reader's reading of the line decides |
| `Properties.UntouchedLinesSurvive` | internal/minecraft/properties.go:85-115 | comments, blanks and lines of other keys keep text and position, and only keys no line mentions are appended |
| `Properties.LoadAfterSave` | internal/minecraft/properties.go:28-115 | loading what was saved equals the old properties overridden by the new ones iff those are well-formed, for any old text, duplicate keys and any order of appended keys |
| `Properties.SaveTwice` | internal/minecraft/properties.go:85-115 | for any properties, saving them again gives the same text iff every key can be read back, no value holds a newline and no kept line still ends in a carriage return |
| `Properties.UnchangedIffGivenBack` | internal/minecraft/properties.go:85-115 | a second save leaves a saved text alone iff it gives back each of its lines and appends nothing: newlines never get fewer |
| `Properties.ParsedIsWellFormed` | internal/minecraft/properties.go:28-49 | whatever is read from a line is well-formed, so the condition of the round trip is met by all loaded properties |
| `Ports.CheckPortAvailability` | internal/db/store.go:1339-1390 | the answer is the first conflict in scanning order, one that is found without the hostname |
| `Ports.FindConflictMeaning` | internal/db/store.go:1339-1390 | nothing is reported iff no other module's entry clashes, else a holder that does and the reason |
| `Ports.FindConflictFirst` | internal/db/store.go:1339-1390 | what is reported is the first clash: no earlier module or entry has one; its port, its protocol, and bound directly iff one of the two is not proxied, else UDP |
| `Ports.MeetsCommentIff` | internal/db/store.go:1332-1338 | the check agrees with the documented sharing rule iff some entry of another module clashes or no module of the same hostname has the port proxied over TCP |
| `Ports.SameHostnameAcceptedIff` | internal/db/store.go:1332-1390 | a module of the same hostname is accepted on a taken port iff the protocol is not UDP and everybody there is proxied |
| `Ports.TwoModulesOneHostname` | internal/rpc/services/module.go:543-699 | a run that stores two modules of one server on one proxied TCP port |
| `Ports.ClashSymmetric` | internal/db/store.go:1350-1385 | the conflict relation is symmetric under the empty-means-tcp default |
| `Ports.SharedPortsAreProxied` | internal/db/store.go:1332-1338 | in a consistent store two modules sharing a host port and protocol are both proxied and not UDP |
| `Ports.AllocateModulePortExcluding` | internal/module/manager.go:604-632 | the least port of the range that no stored module and no earlier assignment uses; nothing iff there is none |
| `Ports.AllocateHostPorts` | internal/rpc/services/module.go:573-588 | succeeds iff the request needs no more ports than are free, and the k-th entry in need gets the k-th free port |
| `Ports.FilledEntries` | internal/rpc/services/module.go:573-588 | exactly the entries with a container port and no host port get a free one, and nothing else of them changes |
| `Ports.CheckAll` | internal/rpc/services/module.go:590-606 | passes iff no entry with a host port clashes with another module |
| `Ports.Store.CreateModule` | internal/rpc/services/module.go:543-699 | the outcome of a create request, the new module of its server with its filled ports, and that the store stays consistent |
| `Ports.Store.UpdateModule` | internal/rpc/services/module.go:751-778 | the outcome of replacing ports, everything else untouched, and that the store stays consistent |
| `Ports.Store.DeleteModule` | internal/rpc/services/module.go:860-871 | removes that module only, and the store stays consistent |
| `Ports.GivenOutPorts` | internal/rpc/services/module.go:573-588 | ports given out in one request are in range, distinct, ascending and unused by stored modules |
| `Ports.AutoAssignedIsAvailable` | internal/rpc/services/module.go:573-606 | a request that leaves all host ports to the allocator always passes the conflict check |
| `Ports.RequestClashesWithItselfIff` | internal/rpc/services/module.go:573-606 | the filled ports of a request clash with each other iff two fixed entries did, or a fixed entry takes the very port the allocator has next for another and they cannot share it |
| `Ports.OneRequestMayClashWithItself` | internal/rpc/services/module.go:573-606 | an instance that passes the check |
| `Ports.CreateKeepsConsistent` | internal/rpc/services/module.go:590-683 | checking the incoming module alone is enough |
| `Ports.EveryReachableStoreIsConsistent` | internal/rpc/services/module.go:543-871 | in every state any run of create, update and delete requests reaches, no two modules clash |
| `Ports.FindAvailableListenerPort` | internal/db/store.go:642-691 | the least port from 25565 that no listener, directly bound server or TCP port of a module takes; nothing iff there is none |
| `Upload.ChunkCountExact` | pkg/upload/upload.go:81-85 | the announced number of chunks is the rounded-up quotient, at least one, iff that is below 2^31 |
| `Upload.Session.constructor` | pkg/upload/upload.go:81-120 | a new session has nothing received and a file of zeros of the total size |
| `Upload.InitSession` | pkg/upload/upload.go:75-127 | which requests fail and how, for any size and chunk size, and that a new session with a positive chunk size is a correct start for every source of that size |
| `Upload.NegativeChunkSize` | pkg/upload/upload.go:81-85 | with a negative chunk size, whatever the total, only the first chunk has an offset that can be written to; at most two chunks are announced when the quotient is an int32, and when it is |
| `Upload.NegativeChunkSizeWraps` | pkg/upload/upload.go:81-85 | an instance in which the quotient wraps around to 2^31 - 1 announced chunks |
| `Upload.Session.WriteChunk` | pkg/upload/upload.go:148-200 | the error cases change nothing, a repeated chunk changes nothing, a new one is written at its offset, counted, and completes the session when it is the last |
| `Upload.Session.GetMissingChunks` | pkg/upload/upload.go:267-284 | the ascending list of exactly the chunks not received |
| `Upload.ChunkKeepsAssembled` | pkg/upload/upload.go:172-196 | a correctly cut chunk at any time keeps: received regions hold the source, bytes received is the sum over distinct chunks, completion is counted |
| `Upload.CompletedIsSource` | pkg/upload/upload.go:184-196 | completed iff all chunks are received (a cardinality argument), and then the file is the source |
| `Upload.SourceUnlessNonZeroMissing` | pkg/upload/upload.go:148-200 | before completion the file equals the source iff everything missing is zero |
| `Upload.UploadChunks` | pkg/upload/upload.go:148-200 | any order with any repetitions and stray indices: received grows by exactly the valid ones, completion iff all, and then the file is the source |
| `Upload.WriteInPieces` | pkg/upload/upload.go:224-240 | writing pieces one after the other is writing their concatenation |
| `Upload.Session.CopyStream` | pkg/upload/upload.go:221-247 | the copy loop writes everything delivered before the end or the break, and progress follows the position |
| `Upload.Session.WriteStream` | pkg/upload/upload.go:203-264 | the outcome, the file, the progress and the completion of one stream call |
| `Upload.StreamKeepsResumable` | pkg/upload/upload.go:203-264 | a call from at most the received offset that delivers the source keeps the received prefix right; completion implies the file is the source |
| `Upload.ResumedStreamIsPrefix` | pkg/upload/upload.go:203-264 | after any number of cut-off attempts the received part is a prefix of the source, and a completed session is the source |
| `Upload.ResumeStream` | pkg/upload/upload.go:203-264 | one attempt through the session itself is one step of such a run |
| `Upload.GapIsNotFilled` | pkg/upload/upload.go:221-236 | an attempt beyond the received offset keeps the prefix right iff the file already held the source in the gap |
| `Backups.SortNewestFirst` | internal/scheduler/backup.go:203-206 | a permutation, newest first, ties in any order |
| `Backups.Directory.FindBackups` | internal/scheduler/backup.go:189-201 | lists each backup of the directory once, with its time, and nothing else |
| `Backups.PickDoomed` | internal/scheduler/backup.go:208-224 | the two loops together pick a set that leaves exactly the newest k, with k in closed form from cap, minimum and number of recent backups |
| `Backups.Directory.RemoveAll` | internal/scheduler/backup.go:226-234 | removes what can be removed, counts it, and reports an error iff something could not |
| `Backups.Directory.Prune` | internal/scheduler/backup.go:174-234 | no policy or an unreadable directory changes nothing; otherwise all but the newest k backups go, except those that cannot be removed |
| `Backups.OnlyBackupsGo` | internal/scheduler/backup.go:190-193 | other files are untouched, what goes are zip files with the prefix, and the backups left are the old ones less the removed |
| `Backups.CapAndFloor` | internal/scheduler/backup.go:170-173 | the cap always holds, the minimum survives iff the cap allows it, and never all backups go |
| `Backups.ExpiredGo` | internal/scheduler/backup.go:208-224 | with an age limit an expired backup stays only while no more than the protected number survive; without one exactly the cap survives |
| `Backups.OnlyExpiredGoBelowCap` | internal/scheduler/backup.go:208-224 | below the cap only expired backups go and the protected number stays |
| `Backups.NewestSurvives` | internal/scheduler/backup.go:170-173 | a backup that no other is newer than survives |
| `Backups.RecentGoesOnlyByCap` | internal/scheduler/backup.go:208-224 | a backup within the age limit goes only when the cap cannot hold all such backups |
| `Backups.KeptIsStable` | internal/scheduler/backup.go:208-224 | whatever part of the doomed backups is gone, the number to keep is unchanged |
| `Backups.SecondPruneRemovesNothing` | internal/scheduler/backup.go:174-234 | pruning again at the same time removes nothing |
| `Backups.RetryFinishes` | internal/scheduler/backup.go:226-234 | after failed removals a later prune leaves exactly as many as the first should have |

## Left out

- StrMatch.Unicode: normalisation and the classification of token runes are arbitrary functions, not Go's Unicode tables.
- StrMatch.Score: real numbers instead of 64-bit floats, so rounding near the band limits is not captured.
- AliasSubstitute.SubstituteNestedPaths: requires that the loop ends, since a method that does not end has no result; when it does is `AliasTemplate.LoopEndsIffNoCycle` for templates and `AliasSubstitute.BraceFreeAnswersEnd` for any text.
- AliasTemplate.LoopEndsIffNoCycle: like ContextExpands it speaks of texts and answers made of references and of literals that open none; a value with an unclosed or split `{{` is no such template.
- AliasTemplate.Substitute: the computed aliases set beforehand are part of its input.
- The alias catalogue's categories, descriptions, special and module entries, and its sorting: only the walker that lists paths and values is modelled.
- AliasTree.FormatValue: Go's rendering of numbers and booleans is the text of a leaf; reflection is a tree of structs, slices, pointers and leaves.
- ModuleStarter.Manager.StartModule: assumes that a container just created is found by the status check; like StartRequest it asks for what makes the recursion end, a rank or no circle, since a method that does not end has no result.
- ModuleStarter.StartRequest: a module whose recorded container may be gone counts as not Running in that condition, since it is created anew.
- ModuleRecursion.EndsIffNoCircle: a dependency that is not stored is a refusal, so all are taken to be stored here.
- Stopping, restarting and deleting modules, health waits as time, init commands, log streaming and proxy routes of modules.
- Lifecycle.DetectLifecycleEvents: a poll without a bus, or whose listing of servers fails, does nothing and is a poll of no server; docker statuses beyond running, unhealthy, starting and anything else are one status; event payloads are the player's name.
- VarInt.ProxyWriteVarInt: requires a non-negative value because the loop has no end on others, as `VarInt.ExitIffNonNegative` proves; so does `VarInt.Len`.
- Handshake.WriteHandshakePacket: requires a non-negative version and next state for the same reason, and a payload below 2^31 bytes, beyond which Go's length conversion wraps.
- Status responses, pings and `readString`: the same framing with JSON or fixed-size contents.
- ProxyRouting.MinecraftProxy.HandleConnection: what happens after the handshake (copying in both directions), deadlines, a backend that is dialed but refuses the bytes, and the login error message.
- ProxyRouting.HostnameOfAddress: lower-casing is an arbitrary function that treats text around a NUL separately.
- Properties.LoadServerProperties: lines above the scanner's 64 KB limit, and read or write failures other than a missing file.
- Ports.Store.CreateModule: fields other than ID, server and ports, and the checks of name and template that come first; servers do not change during a run; requests run one at a time, so two requests that both pass the check before either saves are not captured.
- Ports.AutoAssignedIsAvailable: requires a positive start of the port range; ports are not truncated to 32 bits.
- Upload.Session.WriteChunk: disk errors of an open file are not modelled, and sizes do not overflow 64 bits.
- Upload.ResumedStreamIsPrefix: sessions that mix chunks and streams, and concurrent calls on one session, are outside it.
- The upload session table, its expiry, cancelling and clean-up.
- Backups.SortNewestFirst: the library's sort is any method with that contract; an insertion sort stands in for it.
- Making backups, the scheduler, webhooks, users and permissions, indexers, file management, downloads and the web front end.
