# A model of the module loader, the bundler and the CLI's small protocols

This project models the loader, the bundler and several smaller protocols of a code editor's repository and proves what they promise.

**The AMD module manager** (`Orders`, `Graph`, `LoaderState`, `LoaderSteps`, `LoaderTheorems`,
`LoaderOrder`, `Loader`, `LoaderSession`). `Loader.Module` and `Loader.ModuleManager` are classes with the fields of the
loader's own classes; their methods update records, counters and inverse dependency lists in
place, recursively where the loader does; four more fields record what the outside world sees: the
scripts requested, the factories called, the errorbacks called and the errors that reached the
global handler, each in order. A ghost field holds the same data as a value, with
histories that no code reads: every dependency list declared, every dependency cut to break a
cycle, the factories invoked, in order, those that threw past the loader, and the waiters that
such a throw kept from being counted down. The invariant (`LoaderState.Inv`) holds at
every point, also inside nested completions: an incomplete module's counter equals its
occurrences in live inverse lists plus what the active frames still have to count down, plus what
aborted frames will never count down, and the waits-for graph is acyclic. Whole runs are sequences of definitions and load errors.

Freedom from deadlock fails in two ways, and the model shows exactly where. A module is stuck
when it is incomplete and nothing can complete it any more (`LoaderTheorems.Stuck`).

- When a module depends on one that has already failed, resolving it returns early and does not
  tell the modules that wait for it (`vscode/src/vs/loader.js:1677-1681`).
  `LoaderSession.StrandedRun` is such a run.
- When a factory throws and `catchError` is off, which is the default
  (`vscode/src/vs/loader.js:269-270`), the exception leaves every active completion frame
  (`vscode/src/vs/loader.js:1131-1137`). The thrower counts as complete but keeps its waiters, and
  the waiters that the frames had not reached are never counted down. `LoaderSession.EscapedThrow`
  and `LoaderSession.LostWaiter` are such runs.

`LoaderTheorems.NoDeadlock` gives the exact condition for a state, and
`LoaderSession.AllCompleteExactly` for a whole run: all modules are complete, once every requested
id is defined, if and only if no event left a module behind that no later load error marked. Each
event's share is exact for every module (`LoaderTheorems.StuckAfter`).

The order in which things happen is proved as well (`LoaderOrder`): waiters complete one at a time
in the order in which they began to wait, each with everything it releases before the next;
scripts are requested in the order of the dependency list; a load error is spread breadth first
along the inverse lists. `Orders.Before` says what it means for one element to come before another.

**The source-map concatenator and bundler** (`Int32`, `Vlq`, `Mappings`, `MappingsWriter`,
`SourceMaps`, `DynamicBuffers`, `SourceMapBuilders`, `Bundling`). `Mappings.Decode` is an
independent reader of the mappings format (ECMA-426, "Mappings structure" and "Base64 VLQ"); it
inverts a direct writer of that format (`MappingsWriter`). The builder's one-pass transducer is
then proved against that reader: what its mappings say afterwards is what they said before,
followed by what the new source's mappings say about each of its lines, with the same source
names. Mappings that are not well formed are followed as well: the text, the errors and the number
of line ends are proved for all of them, and a source index out of range is shown to be attributed
to the source before it. JavaScript's 32-bit shifts are written out. The encoder's range, below 2^30 in magnitude,
is exact. The bundler's walk is proved to order the modules and to build exactly the text of that
order, and the map too when all maps are well formed.

**The stream multiplexer** (`StreamProtocol`, `Streams`). A state machine whose steps are the
locked sections and awaited operations; the class `Streams.Streams` takes exactly these steps on
the shared records. Conservation, ownership of the write half and halting are proved for every
interleaving in which no stream is inserted while a write loop runs for its id; that condition is
exact (`StreamProtocol.InsertKeeps`).

**RPC matching** (`RpcProtocol`, `Rpc`). Id allocation, sending and registration are separate
steps. A call is answered if and only if a reply with its id arrives after it registered, before a
later call that was given the same id by the 32-bit counter takes its place. Since the message
is sent first, a reply can overtake the registration and is then lost
(`RpcProtocol.OvertakenReply`). `Rpc.Interleave` runs the dispatcher's own fields over any such
run.

**The chunked keyring codec** (`Keyring`), **the download cache** (`Downloads`), **the
line-buffering stream wrapper** (`LineBuffers`) and **module id normalisation** (`ModuleIds`).
The keyring's round trip fails when the text fills its chunks exactly, because every chunk then
carries the marker, and when its last chunk happens to end in the marker; `Keyring.RoundTrip`
shows that these are the only cases. The cache's list and directories agree over whole sessions
unless a save fails and a new process then starts from the stale file (`Downloads.LostName`).
The wrapper cuts a line short exactly when a chunk does not fit beside the unfinished line before
it. The id normaliser, which rewrites text match by match, computes what a stack gives, for all
ids.

## Model

| member | source | states |
|---|---|---|
| Loader.Module.constructor | vscode/src/vs/loader.js:1097-1109 | a new record is incomplete, without error, and counts all its dependencies as unresolved |
| Loader.Module.Complete | vscode/src/vs/loader.js:1124-1168 | the module is complete; a throw that is caught is recorded, and the dependency list and errorback are dropped; a throw that is not caught, the default, leaves the rest of the record as it was |
| Loader.Module.OnDependencyError | vscode/src/vs/loader.js:1172-1180 | the module is complete and carries the error; the result says whether there was an errorback; its dependency list stays |
| Loader.ModuleManager.Enqueue | vscode/src/vs/loader.js:1521-1537 | a hit exactly when the target is among the dependencies; otherwise exactly the registered ones are in the queue, each once |
| Loader.ModuleManager.HasDependencyPath | vscode/src/vs/loader.js:1505-1541 | terminates on every graph and answers true if and only if a non-empty path of held dependency edges leads from one id to the other |
| Graph.AcyclicAfterEdge | vscode/src/vs/loader.js:1685-1698 | adding an edge keeps a graph acyclic when no path led back; the reason the cycle check suffices |
| Graph.SinkExists | vscode/src/vs/loader.js:1658-1721 | every finite set of nodes of an acyclic graph has one whose edges all leave the set |
| LoaderSteps.RegisterKeeps | vscode/src/vs/loader.js:1361-1369 | registering a module keeps the invariant, its dependencies being the visits still to come |
| LoaderSteps.CountDownKeeps | vscode/src/vs/loader.js:1768-1775 | counting a module down pays for one pending occurrence and keeps the invariant inside nested completions |
| LoaderSteps.CutKeeps | vscode/src/vs/loader.js:1685-1695 | cutting a dependency keeps the invariant and records a declared path that leads from the dependency back to the module |
| LoaderSteps.AwaitAcyclic | vscode/src/vs/loader.js:1685-1698 | recording an inverse dependency after the cycle check keeps the waits-for graph acyclic |
| LoaderSteps.AwaitKeeps | vscode/src/vs/loader.js:1696-1715 | recording an inverse dependency moves one unit of the counter from the visits to the live lists and keeps the invariant |
| LoaderSteps.ReadyMeansDepsRan | vscode/src/vs/loader.js:1718-1720 | a counter of zero means that every ordinary dependency has run or was cut |
| LoaderSteps.RunOrder | vscode/src/vs/loader.js:1761-1764 | however a ready module's factory ends, the run order is kept: each dependency ran earlier or was cut |
| LoaderSteps.RunKeeps | vscode/src/vs/loader.js:1761-1776 | running a ready module moves its waiters to the frame that will count them down and keeps the invariant; it ran once |
| LoaderSteps.AbortKeeps | vscode/src/vs/loader.js:1131-1176 | a throw that nobody catches leaves all active frames; what they had left to count down is lost, and the invariant holds again with nothing left to do |
| LoaderSteps.FailKeeps | vscode/src/vs/loader.js:1677-1681 | failing while being resolved gives up the remaining visits and leaves a quiescent state |
| LoaderSteps.FailModulesKeeps | vscode/src/vs/loader.js:1464-1498 | marking any set of modules between two events leaves a quiescent state that extends the old one |
| Loader.ModuleManager.InvokeFactory | vscode/src/vs/loader.js:1761 | the factory is called; the module's record is completed, or aborted by a throw that nobody catches; a caught throw is returned |
| Loader.ModuleManager.RunFactory | vscode/src/vs/loader.js:1761-1764 | the factory is invoked; a caught throw reaches the global handler; the module's inverse dependencies are returned and cleared, unless the factory throws and nobody catches it; then they stay |
| Loader.ModuleManager.OnModuleComplete | vscode/src/vs/loader.js:1722-1776 | the recursive cascade terminates, keeps the invariant in every nested frame, runs the module, and leaves no incomplete module with a counter of zero; a module only counts down or runs; waiters complete one at a time in the order of the inverse list: before a waiter runs, those that its predecessors paid off have run, and all they release; a throw that nobody catches leaves this frame and all active ones, and what they still had to count down is lost |
| Loader.ModuleManager.CountDownWaiter | vscode/src/vs/loader.js:1768-1775 | one turn of a frame: the waiter is counted down and completed at zero; only a throw keeps the frame from going on with the rest |
| Loader.ModuleManager.LoadModule | vscode/src/vs/loader.js:1591-1596 | the script is requested and the id becomes known, once, unless its module is defined already |
| Loader.ModuleManager.AwaitDependency | vscode/src/vs/loader.js:1696-1715 | the module joins the end of the dependency's inverse list and the dependency is requested |
| Loader.ModuleManager.CutDependency | vscode/src/vs/loader.js:1685-1695 | the cycle flag is set and the counter goes down by one |
| Loader.ModuleManager.VisitDependency | vscode/src/vs/loader.js:1661-1716 | fails exactly on a complete dependency with an error; otherwise the dependency is settled: it ran, was cut, or has the module in its inverse list; its script is requested exactly if it was neither known nor defined |
| Loader.ModuleManager.Resolve | vscode/src/vs/loader.js:1658-1721 | fails with the error of the first failed dependency exactly if there is one, touching no other module; otherwise completes what became ready, depth first, up to a throw that nobody catches; the scripts that nobody had requested are requested in the order of the list; in each case a quiescent state |
| Loader.ModuleManager.RegisterModule | vscode/src/vs/loader.js:1361-1362 | the record, incomplete, with the given dependencies and errorback, is stored under its id and nothing else changes |
| Loader.ModuleManager.DefineModule | vscode/src/vs/loader.js:1352-1370 | a duplicate definition changes nothing; after a new one exactly those modules are stuck that were stuck before or that it leaves behind: the incomplete waiters of a module whose dependency had failed, the waiters of a factory that threw, and what the aborted frames had not counted down; waiters complete depth first in the order in which they began to wait; new scripts are requested in the order of the list, all that are needed if nothing had failed; the global handler hears of the caught throws in the order of the factories, and of nothing else |
| Loader.ModuleManager.EnqueueInverse | vscode/src/vs/loader.js:1484-1493 | the queue gains each inverse dependency not seen before, once, in the order of the list |
| Loader.ModuleManager.MarkElement | vscode/src/vs/loader.js:1479-1484 | one module of the walk is failed, its errorback called, and its inverse dependencies fetched |
| Loader.ModuleManager.WalkInverse | vscode/src/vs/loader.js:1475-1494 | the walk terminates and has failed exactly the modules it reached along inverse dependencies, breadth first |
| Loader.ModuleManager.EnsureModule | vscode/src/vs/loader.js:1466-1468 | a module that has no record gets an empty one; all others stay |
| Loader.ModuleManager.OnLoadError | vscode/src/vs/loader.js:1464-1498 | exactly the modules reachable through inverse dependencies are marked with this error, breadth first; the errorbacks among them are called in that order, once each; the global handler hears of the error exactly if there was none; nothing else changes in any record or list; exactly the stuck modules that are not marked stay stuck |
| LoaderTheorems.NoDeadlock | vscode/src/vs/loader.js:1658-1776 | once every requested id is defined, all modules are complete if and only if no incomplete module waits for a complete one or was lost by an aborted frame, cycles or not |
| LoaderTheorems.NoDeadlockWithoutFailures | vscode/src/vs/loader.js:1658-1776 | without errors and without a throw that nobody caught every defined module has run once every requested id is defined |
| LoaderTheorems.FactoryOrder | vscode/src/vs/loader.js:1685-1776 | when a factory runs each dependency ran before it, or a declared path leads from that dependency back to the module; no factory runs twice |
| LoaderTheorems.DependencyOrder | vscode/src/vs/loader.js:1685-1776 | on an acyclic graph nothing is cut and factories run in dependency order |
| LoaderOrder.PaidOffRan | vscode/src/vs/loader.js:1766-1776 | a module whose whole count is due to one that ran has run by the time no active frame has it left to count down |
| LoaderOrder.ReleasedRan | vscode/src/vs/loader.js:1766-1776 | so has everything that such a module releases, whatever frame completed it |
| LoaderOrder.NextTurn | vscode/src/vs/loader.js:1766-1776 | at each turn of a completion frame everyone paid off has run, with all they release, and the waiter whose turn it is has not |
| LoaderOrder.RequestsOf | vscode/src/vs/loader.js:1591-1716 | a definition requests only ids that were neither known nor defined, each listed before the next, and leaves no dependency unrequested unless one had failed |
| LoaderOrder.WalkNext | vscode/src/vs/loader.js:1477-1493 | marking the next module and queueing its new waiters keeps the queue what is left of the first occurrences along the inverse lists |
| LoaderOrder.NearerFirst | vscode/src/vs/loader.js:1477-1493 | in the breadth-first order whoever is first met behind another module, in the same inverse list or later, is marked after it |
| LoaderTheorems.VisitSkips | vscode/src/vs/loader.js:1663-1684 | visiting a special or finished dependency keeps the invariant and settles it |
| LoaderTheorems.VisitCuts | vscode/src/vs/loader.js:1685-1695 | visiting a dependency that leads back keeps the invariant and settles it |
| LoaderTheorems.VisitAwaits | vscode/src/vs/loader.js:1696-1715 | visiting any other dependency keeps the invariant and settles it |
| LoaderTheorems.ResolveFails | vscode/src/vs/loader.js:1677-1681 | the early return leaves a quiescent state in which the module carries the error of its first failed dependency |
| LoaderTheorems.ResolveSucceeds | vscode/src/vs/loader.js:1658-1721 | a resolution that goes through gives an error only to modules whose throw was caught, and aborts exactly at a throw that was not |
| LoaderTheorems.CaughtConcat | vscode/src/vs/loader.js:1131-1176 | the errors caught in two stretches of a run are those of the first and then those of the second |
| LoaderTheorems.StaysStuck | vscode/src/vs/loader.js:1722-1776 | running modules frees nobody who is stuck |
| LoaderTheorems.StuckByThrow | vscode/src/vs/loader.js:1722-1776 | running modules makes nobody stuck, except by a throw that nobody catches |
| LoaderTheorems.StuckByFailure | vscode/src/vs/loader.js:1677-1681 | the early return makes stuck exactly the incomplete modules that wait for the one that fails |
| LoaderTheorems.StuckAfter | vscode/src/vs/loader.js:1352-1498 | after any event exactly those modules are stuck that it left behind, and those stuck before that it did not mark |
| LoaderTheorems.LoadErrorKeeps | vscode/src/vs/loader.js:1464-1498 | a load error leaves a quiescent state |
| LoaderTheorems.StuckAfterLoadError | vscode/src/vs/loader.js:1464-1498 | a load error frees exactly the stuck modules that it marks, and makes nobody stuck |
| LoaderSession.StuckExactly | vscode/src/vs/loader.js:1352-1776 | in every run exactly those modules are stuck that some event left behind and no later load error marked |
| LoaderSession.AllCompleteExactly | vscode/src/vs/loader.js:1352-1776 | once every requested id is defined, all modules are complete if and only if every module left behind was marked by a later load error |
| LoaderSession.AbandonedExactly | vscode/src/vs/loader.js:1658-1681 | in a run of definitions whose throws, if any, are caught, all modules are complete once every requested id is defined, if and only if no definition failed at once while an incomplete module waited for it |
| LoaderSession.NeverFails | vscode/src/vs/loader.js:1352-1776 | in a run of definitions without throws nothing ever fails |
| LoaderSession.MarkedNeverRuns | vscode/src/vs/loader.js:1464-1498 | a module that a load error marks before it ran carries that error right after, and keeps an error and never runs in the rest of the run |
| LoaderSession.Replay | vscode/src/vs/loader.js:1352-1776 | any run of definitions and load errors on the manager's own records; when every requested id is defined, all modules are complete if and only if nobody stays behind; without failures all have run |
| LoaderSession.StrandedRun | vscode/src/vs/loader.js:1677-1681 | a run whose early return leaves a module stuck although every requested id has been defined |
| LoaderSession.EscapedThrow | vscode/src/vs/loader.js:1131-1137 | with the default configuration two modules are enough: one waits for the other, whose factory throws; the first is stuck and nothing carries an error |
| LoaderSession.LostWaiter | vscode/src/vs/loader.js:1761-1776 | a throw in the middle of a cascade leaves a module stuck that no inverse list names any more |
| LoaderSession.TwoWaiters | vscode/src/vs/loader.js:1352-1776 | two modules wait for a third: when it is defined the factories called are its own and then theirs, in the order in which they began to wait, and its script was requested once |
| ModuleIds.NormalizeModuleId | vscode/src/vs/loader.js:1061-1078 | for every id the rewriting loops terminate and the result is the stack evaluation of the segments, the last one kept as it is |
| ModuleIds.DropVoid | vscode/src/vs/loader.js:1064-1074 | removing "." or a name with its ".." anywhere before the last segment does not change the evaluation |
| ModuleIds.PushLaws | vscode/src/vs/loader.js:1058-1078 | a name goes on the stack and ".." takes it off again; "." does nothing; ".." stays behind "..", behind an empty segment and at the front |
| ModuleIds.Examples | vscode/src/vs/loader.js:1058-1078 | "a/../name" becomes "name", "./a/name" becomes "a/name", and "../../name" stays |
| ModuleIds.LeadingPairGone | vscode/src/vs/loader.js:1070-1076 | when no interior match is left, at most one replacement at the front is needed to reach the normal form |
| ModuleIds.NormalizedTwice | vscode/src/vs/loader.js:1061-1078 | the result is in normal form and normalising it again changes nothing |
| ModuleIds.SamePath | vscode/src/vs/loader.js:1061-1078 | the result denotes the path that the id denotes, its last segment included |
| ModuleIds.LeadingRun | vscode/src/vs/loader.js:1061-1078 | without empty segments, ".." is left only as a run at the front and maybe as the last segment |
| Vlq.VlqRoundTrip | vscode/scripts/playground-server.ts:852-871 | decoding an encoded number, whatever follows it, gives the number back if and only if its magnitude is below 2^30 |
| Vlq.PrefixCode | vscode/scripts/playground-server.ts:852-871 | a concatenation of encoded numbers decodes to exactly that list |
| Vlq.AddDigit | vscode/scripts/playground-server.ts:775-777 | adding one digit with 32-bit shifts is exact while the number is below 2^31 |
| Vlq.AlphabetRoundTrip | vscode/scripts/playground-server.ts:819-827 | the digit tables are inverse, and no digit is a separator |
| Vlq.TheAlphabet | vscode/scripts/playground-server.ts:819-827 | digit i is the i-th character of the alphabet from 'A' to '/', and each character of it, '=' included, has its position as value |
| Vlq.NotInTheAlphabet | vscode/scripts/playground-server.ts:819-827 | a byte has no value exactly if it is not in the alphabet |
| Vlq.Encodings | vscode/scripts/playground-server.ts:852-871 | the encodings of 0, 1, -1, 15, 16, -16 and 500, as text: sign bit, digit order and continuation bit |
| Int32.Wraps | vscode/scripts/playground-server.ts:775-777 | conversion to 32 bits keeps the value modulo 2^32 and lands in the signed range; shift distances count modulo 32 |
| DynamicBuffers.DynamicBuffer.constructor | vscode/scripts/playground-server.ts:833-836 | an empty buffer |
| DynamicBuffers.DynamicBuffer.EnsureCapacity | vscode/scripts/playground-server.ts:838-845 | the contents stay; the capacity is at most the larger of 512 and twice what is needed; all copying so far is at most the capacity minus 512 |
| DynamicBuffers.DynamicBuffer.AddByte | vscode/scripts/playground-server.ts:847-850 | the contents grow by one byte |
| DynamicBuffers.DynamicBuffer.AddVlq | vscode/scripts/playground-server.ts:852-871 | the contents grow by the number's encoding |
| DynamicBuffers.DynamicBuffer.AddBuffer | vscode/scripts/playground-server.ts:880-884 | the contents grow by the given bytes |
| DynamicBuffers.DynamicBuffer.ToBytes | vscode/scripts/playground-server.ts:886-888 | the bytes added, without the spare capacity |
| Mappings.RunEncoded | vscode/scripts/playground-server.ts:773-790 | reading an encoded number at the start of a field adds exactly that field |
| Mappings.MoreSources | vscode/scripts/playground-server.ts:724-731 | a longer list of sources does not change the meaning of well-formed mappings |
| Mappings.PrefixStatus | vscode/scripts/playground-server.ts:761-792 | what is wrong with a prefix is wrong with the whole text |
| Mappings.DecodedExample | vscode/scripts/playground-server.ts:744-792 | the mappings "AAAA;AACA,IAAI;;CAACC" are four lines with the positions they are meant to give |
| MappingsWriter.ReadWrittenMappings | vscode/scripts/playground-server.ts:744-792 | the reader gives back what an independent writer wrote, for all lines of segments in range |
| SourceMaps.RunCommitBytes | vscode/scripts/playground-server.ts:744-760 | reading the bytes of a committed segment takes the output reader to the input's position, the source index remapped |
| SourceMaps.SeparatorFollows | vscode/scripts/playground-server.ts:763-771 | at a separator the output reader has again seen, after what was there before, what the input reader has seen |
| SourceMaps.TailFollows | vscode/scripts/playground-server.ts:793-797 | committing the last segment and padding leaves a whole number of lines, fitted to the source's lines |
| SourceMaps.NoTailFollows | vscode/scripts/playground-server.ts:793-797 | when the mappings reach beyond the source's lines, the output does not end on an empty line at the right count |
| SourceMaps.ReaderGrows | vscode/scripts/playground-server.ts:724-731 | adding names to the source list does not change what the existing mappings mean |
| SourceMaps.OriginAt | vscode/scripts/playground-server.ts:719-731 | the position that a segment gives names the source at its index |
| SourceMaps.FittedAt | vscode/scripts/playground-server.ts:793-797 | fitting lines to a count keeps the first of them and fills up with empty ones |
| SourceMapBuilders.CountNewlines | vscode/scripts/playground-server.ts:891-897 | the number of newline bytes |
| SourceMapBuilders.Source.constructor | vscode/scripts/playground-server.ts:683-700 | a newline is appended exactly to content that is not empty and does not end in one; the line count is the number of newlines |
| SourceMapBuilders.SourceMapBuilder.constructor | vscode/scripts/playground-server.ts:703-711 | an empty builder is valid |
| SourceMapBuilders.SourceMapBuilder.RemapSources | vscode/scripts/playground-server.ts:723-731 | every source index is sent to the same name; the list gains exactly the missing names, at its end and in their order, and stays free of duplicates |
| SourceMapBuilders.SourceMapBuilder.CommitSegment | vscode/scripts/playground-server.ts:744-760 | the pending segment is written relative to the last position written, whatever its source index is, and the running totals follow |
| SourceMapBuilders.MirrorSeparator | vscode/scripts/playground-server.ts:763-771 | on well-formed input, at a separator the loop's variables and the bytes written agree again with a reader of the input and a reader of the output |
| SourceMapBuilders.MirrorDigit | vscode/scripts/playground-server.ts:773-790 | on well-formed input, a digit keeps that agreement |
| SourceMapBuilders.MirrorEnds | vscode/scripts/playground-server.ts:793-797 | on well-formed input, the last segment and the padding complete the transcription |
| SourceMapBuilders.OutOfRangeRepeats | vscode/scripts/playground-server.ts:752-754 | a segment whose source index is out of range is read back as one of the source before it, and so is the next one whatever its index |
| SourceMapBuilders.SourceMapBuilder.Transcode | vscode/scripts/playground-server.ts:732-797 | for any mappings: stops exactly at a byte outside the alphabet; otherwise the mappings gain the larger of the input's line ends and the source's lines; for well-formed ones the builder's mappings then repeat them after what was there |
| SourceMapBuilders.SourceMapBuilder.AddSource | vscode/scripts/playground-server.ts:719-798 | for any mappings the text is appended, a byte outside the alphabet is the only error, and the line ends are counted; for well-formed ones decoding the builder's mappings gives the old lines followed by the source's lines, with the same source names, and one mapped line for each newline of the output exactly if no segment lies beyond the source's last line |
| SourceMapBuilders.SourceMapBuilder.AddLine | vscode/scripts/playground-server.ts:713-717 | the text, a newline and a line end are added; on a valid builder that is one line without segments, and the line count agrees exactly if the text has no newline |
| Bundling.LeaveKeeps | vscode/scripts/playground-server.ts:512-521 | finishing a module keeps the order: each dependency is finished or reaches it |
| Bundling.WalkEnds | vscode/scripts/playground-server.ts:504-523 | the walk ends with exactly the reachable modules, each once, in order |
| Bundling.DependenciesFirst | vscode/scripts/playground-server.ts:508-519 | on an acyclic graph every dependency comes first |
| Bundling.SiblingsInOrder | vscode/scripts/playground-server.ts:508-519 | what visiting a list of modules adds: a listed module that was not entered yet stands before every module that neither it nor one listed before it reaches, whatever was visited already |
| Bundling.PostOrderReaches | vscode/scripts/playground-server.ts:508-519 | visiting a list adds only what its modules reach, and all the listed modules |
| Bundling.RootSiblings | vscode/scripts/playground-server.ts:508-523 | the dependencies of the root stand in the order of its list, unless one of them or one before it reaches the other |
| Bundling.OrderExample | vscode/scripts/playground-server.ts:508-523 | a module 0 with the dependencies 1 and 2, which have none: 1, 2, 0 |
| Bundling.Bundler.Visit | vscode/scripts/playground-server.ts:508-519 | the recursive visit terminates on cyclic graphs, adds exactly the post-order of what was not visited, and keeps order and text in step, and the map if all maps are well formed; it is left early only if a reachable map cannot be read |
| Bundling.Bundler.VisitDependencies | vscode/scripts/playground-server.ts:513-515 | the dependencies are visited in the order of the list: what is added is the post-order of the whole list |
| Bundling.BundleWithDependencies | vscode/scripts/playground-server.ts:504-530 | fails exactly if a reachable module's map has a byte outside the alphabet; otherwise the text is that of the reachable modules, each once, in post-order: a dependency follows only a module it can reach, and the root's dependencies stand in the order of its list unless one reaches another; if all maps are well formed the decoded map is theirs in that order |
| StreamProtocol.NextKeeps | vscode/cli/src/rpc.rs:542-631 | every step of every task and caller keeps the invariant |
| StreamProtocol.Conservation | vscode/cli/src/rpc.rs:542-631 | in every interleaving delivered, in-flight and queued chunks together are exactly what the callers wrote since the stream was last inserted and while it had a record, in order; with no loop running everything was delivered |
| StreamProtocol.Lifecycle | vscode/cli/src/rpc.rs:542-631 | the chunks a stream accepted are those of the run's writes; it has a record from its insertion until it is asked to end, and one that outlives that knows it; only a failed write fails a stream |
| StreamProtocol.Ownership | vscode/cli/src/rpc.rs:543-631 | a live record holds the write half exactly if no task does, and then has an empty queue and is not ended; the loop always finds its record; one shutdown, after everything was delivered |
| StreamProtocol.EndsInTheEnd | vscode/cli/src/rpc.rs:543-631 | a stream that was asked to end and has no task left was shut down once, after all that was written to it |
| StreamProtocol.TurnsDecrease | vscode/cli/src/rpc.rs:596-631 | every turn of a task uses up a turn, and nothing but a write to its stream gives it more |
| StreamProtocol.LoopHalts | vscode/cli/src/rpc.rs:596-631 | when writes to its stream stop, a write loop takes a bounded number of turns |
| StreamProtocol.InsertKeeps | vscode/cli/src/rpc.rs:575-584 | inserting a stream keeps the invariant if and only if no task runs for its id |
| Streams.Streams.Insert | vscode/cli/src/rpc.rs:575-584 | a new record, empty, that holds the write half replaces any other with its id and no other changes; all is well afterwards if and only if no task runs for the id |
| Streams.Streams.Write | vscode/cli/src/rpc.rs:564-573 | the chunk joins the end of the record's queue and the record gives up the write half; a loop that holds it is started exactly if the record had it; without a record nothing changes |
| Streams.Streams.Remove | vscode/cli/src/rpc.rs:543-562 | a record that has the write half is gone and a task shuts it down; one without it is marked as ended and keeps its queue; without a record nothing changes |
| Streams.Streams.WriteLoopLock | vscode/cli/src/rpc.rs:603-621 | the whole queue is taken as a batch; if there is none the loop ends: it goes to shut down and the record is gone if the end was requested, else the write half goes back |
| Streams.Streams.WriteLoopDeliver | vscode/cli/src/rpc.rs:623-627 | the first chunk of the batch is delivered, or on a failure nothing is and the rest of the batch is dropped; after the last one the loop looks at the queue again |
| Streams.Streams.Shutdown | vscode/cli/src/rpc.rs:558-561 | the stream is shut down once more and the task is gone |
| Streams.Interleave | vscode/cli/src/rpc.rs:542-631 | the records themselves go through any interleaving of the protocol's steps; what they have delivered to a stream with no loop and no failed write is what was written to it |
| RpcProtocol.NextKeeps | vscode/cli/src/rpc.rs:342-381 | after every step pending calls and registered callbacks correspond one to one, and whoever waits or was answered had its message sent |
| RpcProtocol.Matching | vscode/cli/src/rpc.rs:342-449 | in every run a call waits exactly from its registration until the first reply with its id after that, or until a later call with the same id takes its place; it is answered, with that reply, if and only if the reply came first |
| RpcProtocol.IdsInOrder | vscode/cli/src/rpc.rs:397-400 | the n-th call to take an id takes n modulo 2^32 |
| RpcProtocol.ProgramOrder | vscode/cli/src/rpc.rs:342-381 | whoever registers was sent before, and took its id before that |
| RpcProtocol.NobodyDisplaced | vscode/cli/src/rpc.rs:397-400 | while at most 2^32 ids were taken, only a reply with its own id ends a call's wait |
| RpcProtocol.OvertakenReply | vscode/cli/src/rpc.rs:356-378 | a reply dispatched between the send and the registration leaves the call waiting |
| Rpc.Dispatcher.NextMessageId | vscode/cli/src/rpc.rs:397-400 | the counter's value modulo 2^32, and the counter goes up by one |
| Rpc.Dispatcher.SendBody | vscode/cli/src/rpc.rs:356-359 | the message is handed to the sender under the call's id; if it cannot be, nothing is sent and the call ends |
| Rpc.Dispatcher.RegisterCallback | vscode/cli/src/rpc.rs:361-378 | the callback is stored under the call's id, whose message went out before |
| Rpc.Dispatcher.DispatchReply | vscode/cli/src/rpc.rs:439-449 | invokes exactly the waiting call with the reply's id, with that reply, and forgets it |
| Rpc.Interleave | vscode/cli/src/rpc.rs:342-449 | over any run the callbacks invoked, with their replies, are exactly those that the run answers, each once |
| Keyring.RoundTrip | vscode/cli/src/auth.rs:308-352 | reading after storing gives the text back over any older entries if and only if the last chunk is neither empty nor ends in the marker |
| Keyring.ChunksFit | vscode/cli/src/auth.rs:330-344 | every entry is non-empty and fits the limit |
| Keyring.ChunkAt | vscode/cli/src/auth.rs:330-344 | the k-th entry is the slice of the text at k times the step, with the marker exactly if the slice is full |
| Keyring.ChunksCover | vscode/cli/src/auth.rs:330-344 | there are just as many entries as the text needs |
| Keyring.ReadsBack | vscode/cli/src/auth.rs:308-328 | entries that hold a text's chunks are read back as that text whatever lies beyond them |
| Keyring.ReadOutcome | vscode/cli/src/auth.rs:308-328 | reading stops at the first entry that fails, is missing or is unmarked, and which of the three it is decides between an error, no entry, and the text of the entries up to it |
| Keyring.KeyringStorage.GetNextEntry | vscode/cli/src/auth.rs:294-305 | the handle of that entry, opened once |
| Keyring.KeyringStorage.Read | vscode/cli/src/auth.rs:308-328 | joins entries up to the first without marker; a missing entry or a failing one ends the read as such |
| Keyring.KeyringStorage.Store | vscode/cli/src/auth.rs:330-352 | writes exactly the chunks, or, at the first entry that fails, exactly those before it |
| Downloads.TouchedRecent | vscode/cli/src/download_cache.rs:120-124 | moving a name to the front keeps the list free of duplicates and in order of last use |
| Downloads.LastIsLeastRecent | vscode/cli/src/download_cache.rs:130-134 | the last name was used before all others and is not the first |
| Downloads.RemoveFirstIsRetain | vscode/cli/src/download_cache.rs:69-71 | on such a list, removing a name once and keeping all others agree |
| Downloads.DownloadCache.SaveList | vscode/cli/src/state.rs:61-85 | the list in memory is replaced in any case, the file only if writing succeeds |
| Downloads.DownloadCache.Touch | vscode/cli/src/download_cache.rs:119-138 | the name is first; at most the least recently used name leaves, with its directory, and only from a list that is too long; at most 5 names plus one for each failed removal |
| Downloads.DownloadCache.Exists | vscode/cli/src/download_cache.rs:52-60 | true exactly if the directory is there, which then counts as used and stays |
| Downloads.DownloadCache.Delete | vscode/cli/src/download_cache.rs:63-72 | directory and name go together; if the directory cannot be removed nothing changes |
| Downloads.DownloadCache.Create | vscode/cli/src/download_cache.rs:78-117 | a directory that is there already is a success that changes nothing; otherwise on success the directory is there and named first; on failure no finished directory appears; the staging directory is gone after the rename; a new directory whose name a failed save did not write is one that a restart forgets |
| Downloads.RestartAgrees | vscode/cli/src/state.rs:46-85 | a process that starts after a save agrees with the disk always if the save succeeded, else exactly if the old file named every finished directory, or, if the file was truncated, exactly if there are none |
| Downloads.DownloadCache.Restart | vscode/cli/src/state.rs:46-59 | a new process starts from the file and agrees with the disk if the last save succeeded |
| Downloads.DownloadCache.Perform | vscode/cli/src/download_cache.rs:52-138 | over any session list and disk agree up to the first process that starts when the last save had failed, whatever else fails; there is none if every save succeeds or no process starts |
| Downloads.LostName | vscode/cli/src/state.rs:61-85 | one failed save before a restart leaves a finished directory that no list names |
| LineBuffers.LineBuffer.Write | vscode/src/bootstrap-fork.ts:127-135 | too much text is logged whole and the buffer is empty; otherwise everything up to the last line end is logged as one piece and the rest is kept, or, without a line end, all is kept; nothing of the input is lost |
| LineBuffers.WriteAll | vscode/src/bootstrap-fork.ts:118-137 | for every chunk sequence the logged pieces and the kept buffer are the input; no piece is cut short exactly if every chunk fits beside the unfinished line before it |
| LineBuffers.ChunksDoNotMatter | vscode/src/bootstrap-fork.ts:118-137 | without overflow, what is logged and what is kept depend only on the text, not on the chunks |
| LineBuffers.SplitUnique | vscode/src/bootstrap-fork.ts:128-132 | a text splits in one way only into complete lines and an unfinished one |

## Left out

- Loader: script loaders, the paths they try, cached data, plugin dependencies, build information, statistics and the text of warnings; a script is an event that defines a module or reports a load error.
- Loader: factories, errorbacks and handlers that call the loader again, and errorbacks or handlers that throw; a factory is one step that throws or does not, and the values of `exports` are not modelled.
- ModuleManager: `catchError` and the factories that throw are fixed for a run; changing the configuration between events is not modelled.
- ModuleIdProvider: a module is a number here and the table of names is not modelled.
- HasDependencyPath: the queue holds ids where the loader's holds the module objects found under those ids.
- OnLoadError: a failed script is named by its module's number, so an error is identified by the script that failed; its stack and its list of modules that needed it are left out.
- NormalizeModuleId: the leftmost match of a pattern is found by a function, in place of the regular expression engine.
- AddSource: what the mappings decode to afterwards is stated for segments of 1, 4 or 5 fields, complete numbers below 2^31, source indices in range, positions from 0 to below 2^30 and at most 2^30 source names; the code checks none of these and accepts '=' as a digit. Numbers are unbounded where the code has doubles.
- AddLine: takes bytes; the UTF-8 encoding of its text is not modelled.
- BundleWithDependencies: takes a parsed and closed module graph, and modules are numbers; the JSON and base64 text of the map is a parameter.
- Playground server: HTTP, watching files, hot reloading and the parsing of modules.
- Streams: chunks are whole writes; partial writes and back pressure are not modelled. The histories of a stream start again when its id is inserted again, and a write half that is replaced is only dropped.
- Interleave: steps are taken one at a time in any order; the runtime's scheduler and memory model are not modelled.
- DispatchReply: a reply without an id, on which the code panics, and the encoding of messages are left out.
- KeyringStorage: text is a sequence of characters, so slicing in the middle of a UTF-8 character, encryption, timeouts and `clear` are left out; handles are always opened successfully.
- DownloadCache: the disk is a set of names; retries of the rename are one outcome; two processes at once are left out.
- Perform: says nothing after a process has started from a file that a failed save left behind.
- LineBuffer: each chunk is text already; its decoding, and an overflow that falls inside a surrogate pair, are left out.
- The CLI's sockets, update service and command line options, and the server's entry points, are left out; they decide little.
