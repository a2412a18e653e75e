# Verified models of Aide's module loader, stream multiplexer and bundler

Aide is a fork of VS Code. This project models the parts of it whose correctness depends on state that lives across
many calls, and proves what those parts promise over every input and every run.

- **The AMD loader** (`src/vs/loader.js`). `LoaderState`, `LoaderInvariant`, `LoaderSearch`, `LoaderSteps`,
  `LoaderCalls`, `LoaderCascade`, `LoaderManager`, `LoaderTheorems` and `LoaderRuns` model the module manager:
  definitions, dependency counters, inverse-dependency lists, cycle cutting, load errors and the cascade of factories.
  A factory is a finite tree: it may define further modules, whose factories may do the same, and it may throw. So a
  cascade may re-enter the manager at every point where the source calls user code; `LoaderCascade` says step by step
  what it does. With `catchError` on, the manager records what a factory throws and goes on. With `catchError` off,
  the default, the exception leaves every call that is under way: modules whose factories have started stay started,
  and waiters that a release has not come to are left out. The model keeps what is left behind in two ghost fields,
  `active` and `owed`, and the invariant is proved with them. `ModuleIds` models the rewriting of relative module ids.
- **The RPC stream table** (`cli/src/rpc.rs`). `Streams`, `StreamsInvariant`, `StreamsPlaces`, `StreamsSteps`,
  `StreamsTheorems` and `StreamTable` model incoming streams as a state machine. One step is one stretch of code
  between two awaits: a locked section, a write, a shutdown. Any interleaving of these steps is a run. `Outgoing` does
  the same for the streams that a duplex call sends.
- **Source maps** (`scripts/playground-server.ts`). `Vlq`, `Mappings`, `Transcoder`, `SourceMaps`, `Scanning`,
  `DynamicBuffer`, `SourceMapBuilder` and `Bundle` model the concatenation of modules and of their maps. The
  reference is a reading of mappings text as in ECMA-426: tokens, then lines of segments with absolute positions. The
  builder writes deltas with the 32-bit arithmetic of JavaScript, and is proved to preserve that reading.
- **Keyring chunks** (`cli/src/auth.rs`) in `Keyring`, **the download cache** (`cli/src/download_cache.rs`) in
  `DownloadCache`, **MessagePack framing** (`cli/src/msgpack_rpc.rs`) in `Framing`.

`Basics`, `Graph` and `Sums` hold what these share: bytes, options, walks, reachability and sums over maps.

## What the code does not promise

Each of these is a property one might expect. Each has a proof of exactly what holds instead.

- With `catchError` off, a factory that throws leaves the modules that wait for it waiting for good, without any
  report (`EscapeStrandsWaiter`, `StrandedForGood`, `AbandonedForGood`). Nothing is left behind exactly when no
  exception has escaped (`ValidExactly`). None escapes from a manager that catches, or that is given no factory that
  throws (`Run`).
- An errorback may run more than once. A load failure calls it once per failing module that its module waits for
  (`ErrbackPerFailure`, `ErrbackRunsTwice`, `ErrbackTwice`). Over a run it is called at most once, and once more for
  each failed load (`Run`).
- A module that meets an error while it resolves its dependencies takes the error over, but does not pass it on to the
  modules that wait for it. They never run (`StrandedForGood`, `ResolveErrorStrandsWaiter`). All modules are complete
  exactly when none is held up by an undefined, errored or stuck module or by an interrupted release
  (`AllCompleteExactly`).
- The id normaliser rewrites the text, so no empty segment can be removed by `..`, and the last segment is never
  touched, even if it is `.` or `..`. `NormalizeModuleId` says what the result is for every id.
- A VLQ number survives writing and reading exactly when its magnitude is below 2^30 (`Vlq.RoundTripExactly`,
  `DecodesEncodedExactly`).
- A keyring value is read back exactly when its length is not a multiple of the step size. At a multiple, the reader
  goes on into whatever an earlier, longer value left behind (`Keyring.RoundTripExactly`).
- A write that fails loses the rest of its segment and of its batch, but not what is queued after it. So the bytes
  delivered may have a gap (`GapRun`). They are the first of the bytes accepted, each from its own position, exactly
  when no write follows a loss (`PrefixOfAcceptedExactly`). Such a gap needs a write half that takes a write after one
  has failed. The half is a `WriteHalf<DuplexStream>` (cli/src/rpc.rs:532), and nothing in the source says whether its
  failures pass or last. The write loop goes on after a failure in either case, so the model allows both.
- Registering a stream under an id that is still in the table breaks the ownership of write halves: the old half is in
  no place, or the old writer puts it back over the new one, which is lost (`OverwriteRun`). Under any other id, one
  whose stream was closed included, ownership is kept (`InsertExactly`). A run keeps every half in one place
  throughout exactly when it never inserts over a stream in the table (`RunKeeps`).
- A module may call both its callbacks, with `catchError` off, if its factory throws and its own script is reported as
  failed afterwards (`BothCallbacks`), and exactly then (`CallbacksAreExclusive`). The source gives errorbacks only to
  modules with generated ids (src/vs/loader.js:1403 and 1834), which no script carries, so its own callers do not come
  to this.
- `addLine` keeps the map in step with the output exactly when the line has no newline (`AddLine`), and `addSource`
  exactly when the added map has nothing beyond the lines of its content (`AddSource`).

## Model

| member | source | states |
|---|---|---|
| `LoaderManager.ModuleManager.HasDependencyPath` | src/vs/loader.js:1505-1541 | the search finds a path exactly when the declared dependencies of defined modules contain a walk of at least one edge from one module to the other, special ids and undefined targets included |
| `LoaderState.KeysAreMentioned` | src/vs/loader.js:1215-1222 | the ids that the searches read off a list of dependencies are exactly those of its regular dependencies, and 0, 1 and 2 for `exports`, `module` and `require` |
| `LoaderManager.ModuleManager.FindCyclePath` | src/vs/loader.js:1548-1568 | a path is reported exactly when a walk reaches the target within 50 edges or a walk of 50 edges exists; what is reported is a real walk, reversed, ending at the start |
| `LoaderManager.ModuleManager.DefineModule` | src/vs/loader.js:1352-1370 | a redefinition changes nothing; otherwise the module is declared with its own dependencies and stands exactly where their examination leaves it, or its factory has run; the state and the escape of an exception are those of the cascade that `LoaderCascade` describes, and the invariant is intact with nothing under way but what the exception interrupted |
| `LoaderManager.ModuleManager.Insert` | src/vs/loader.js:1097-1109 | the module enters with one unresolved dependency per declared one, and nothing else changes |
| `LoaderManager.ModuleManager.Resolve` | src/vs/loader.js:1658-1721 | from a module that has examined nothing, resolving restores the invariant and reaches exactly the state that its dependencies decide |
| `LoaderManager.ModuleManager.ExamineAll` | src/vs/loader.js:1658-1717 | the loop reaches exactly the state of examining each dependency up to the first errored one, and taking its error over |
| `LoaderManager.ModuleManager.ExamineOne` | src/vs/loader.js:1662-1715 | one dependency is waited for, and requested, exactly if it is regular, incomplete and not on a cycle with the module, and else counted as resolved |
| `LoaderCalls.ExaminedStands` | src/vs/loader.js:1658-1717 | after the loop the module has taken over the first error among its dependencies, or every dependency has run, is waited for, or lies on a cycle with it; no other module has changed and the counters still match the waits |
| `LoaderCalls.ExamineOneKeeps` | src/vs/loader.js:1662-1715 | examining a dependency keeps the counter equal to the waits and what is left to examine |
| `LoaderManager.ModuleManager.MustWait` | src/vs/loader.js:1676-1698 | a module waits for a dependency exactly when that is regular, incomplete and has no path back; a path back sets the cycle flag |
| `LoaderManager.ModuleManager.LoadModule` | src/vs/loader.js:1591-1633 | a script is requested exactly when its module is neither defined nor requested before |
| `LoaderManager.ModuleManager.OnDependencyError` | src/vs/loader.js:1172-1180 | the error is taken over, the module completes, and its errorback is called exactly if it has one |
| `LoaderManager.ModuleManager.OnModuleComplete` | src/vs/loader.js:1722-1776 | the module runs exactly the cascade that `LoaderCascade` describes; completing it and releasing all that becomes ready restores the invariant, however factories re-enter the manager; an exception escapes only from a factory that throws while `catchError` is off, and leaves every started module started and every remaining waiter owed its decrement |
| `LoaderManager.ModuleManager.EndFactory` | src/vs/loader.js:1131-1167 | a factory that throws escapes exactly if the manager does not catch; otherwise its outcome is recorded and its waiters are released, as in the cascade |
| `LoaderManager.ModuleManager.RunFactory` | src/vs/loader.js:1139-1155 | the definitions a factory makes while it runs are made in order, each as it is given, up to one from which an exception escapes, and leave its own module running and the invariant intact |
| `LoaderCascade.DefinitionsAre` | src/vs/loader.js:1352-1370 | between the definitions of a factory there are states, the first where it starts: a definition whose id is taken changes nothing, and another enters with its own dependencies, factory and errorback, stays where their examination leaves it, or runs at once |
| `LoaderCascade.ReleasesAre` | src/vs/loader.js:1761-1776 | waiters are released in list order: each counter goes down by one, and a module runs, with all that follows from it, exactly when its counter is then zero and it is incomplete |
| `LoaderCascade.CascadeInOrder` | src/vs/loader.js:1722-1776 | a factory that runs is marked complete and logged and makes its definitions in order; then its exception leaves, or its outcome is recorded and reported, its list of waiters is taken and released in order |
| `LoaderManager.ModuleManager.Release` | src/vs/loader.js:1762-1776 | an inverse-dependency list is drained in order, and takes back one owed decrement per entry; afterwards a module without an earlier error is complete exactly if its counter is zero |
| `LoaderManager.ModuleManager.OnLoadError` | src/vs/loader.js:1464-1499 | what waits for the failed module, directly or not, is told once each, in the order in which those it waits for are told, and the invariant is kept |
| `LoaderTheorems.FailureMarksExactly` | src/vs/loader.js:1464-1499 | exactly the failed module and what waits for it, directly or not, takes the error over; no other module, wait or request changes |
| `LoaderTheorems.FailureReports` | src/vs/loader.js:1475-1499 | a failure calls the errorbacks of the modules it reaches and is reported exactly if none of them has one |
| `LoaderSearch.NearestFirst` | src/vs/loader.js:1475-1495 | the failure is passed on nearest first: of two modules told, the earlier is reached by a walk over waits that is no longer |
| `LoaderManager.ModuleManager.EnqueueDefineAnonymous` | src/vs/loader.js:1332-1345 | a second anonymous definition before the script has loaded is refused, and the first one kept |
| `LoaderManager.ModuleManager.OnLoad` | src/vs/loader.js:1443-1450 | the pending anonymous definition becomes the loaded module, with all that a definition promises, and none is left pending |
| `LoaderTheorems.ValidExactly` | src/vs/loader.js:1126-1137 | the manager is in a state that runs without exceptions can have if and only if no exception has escaped from it |
| `LoaderTheorems.AbandonedForGood` | src/vs/loader.js:1762-1776 | a module that an interrupted release has left out never runs |
| `LoaderTheorems.CounterIsWaits` | src/vs/loader.js:1097-1109 | between calls, an incomplete module's counter is positive, and is the number of waits recorded for it and of decrements that interrupted releases left out |
| `LoaderTheorems.CallbacksAreExclusive` | src/vs/loader.js:1139-1180 | no factory runs twice and no script is requested twice; a module has called both its callbacks if and only if it has an errorback, its factory started and did not return, and it carries an error, which is then that of its own failed script |
| `LoaderTheorems.FactoryAfterDependencies` | src/vs/loader.js:1658-1776 | when a factory ran, each regular dependency had run before it, or can reach it along declared dependencies |
| `LoaderTheorems.IncompleteIsHeldUp` | src/vs/loader.js:1685-1698 | every incomplete module waits, through incomplete modules, on one that is held up by an undefined, errored or stuck module or by an interrupted release |
| `LoaderTheorems.AllCompleteExactly` | src/vs/loader.js:1658-1776 | all modules are complete if and only if none is held up |
| `LoaderTheorems.NoErrors` | src/vs/loader.js:1139-1180 | errors come only from factories that threw and scripts that failed to load |
| `LoaderTheorems.NoDeadlock` | src/vs/loader.js:1658-1776 | once every requested script has defined its module, no script failed, and no factory threw, every factory has run and returned, whatever cycles the dependencies have |
| `LoaderTheorems.StrandedForGood` | src/vs/loader.js:1677-1681 | a module that waits for one that took an error over, or whose factory did not return, never runs in any later state |
| `LoaderTheorems.ErrbackPerFailure` | src/vs/loader.js:1464-1498 | a load failure calls a module's errorback exactly once if the module waits for the failed one and has an errorback, and else not at all |
| `LoaderTheorems.ErrbackRunsTwice` | src/vs/loader.js:1464-1498 | a module that waits for two modules that both fail to load has its errorback called twice |
| `LoaderRuns.TakeStep` | src/vs/loader.js:1352-1500 | each call from outside does what its definition, its script or its failure asks for, with the whole cascade; it keeps the invariant, says when an exception escapes, and how often errorbacks may be called |
| `LoaderRuns.RunFrom` | src/vs/loader.js:1352-1500 | any sequence of calls goes through the states that the calls ask for one after the other; history and completions are final, waits end only when their targets return, errorbacks are bounded |
| `LoaderRuns.Run` | src/vs/loader.js:1332-1776 | from a fresh manager, any sequence of calls goes through the states that the calls ask for and ends in a valid one, with at most one errorback call per module and one more per failed load, and with all factories run if nothing failed and every request was answered |
| `LoaderRuns.EscapeStrandsWaiter` | src/vs/loader.js:1126-1137 | with `catchError` off, a run of the manager in which no script fails, every request is answered, nothing is reported, and a module still waits for one whose factory threw |
| `LoaderRuns.BothCallbacks` | src/vs/loader.js:1131-1180 | a run of the manager in which a factory throws uncaught, the script of its module then fails, and both callbacks have been called |
| `LoaderRuns.ErrbackTwice` | src/vs/loader.js:1464-1498 | a run of the manager with one definition and two failed loads calls one errorback twice |
| `LoaderRuns.ResolveErrorStrandsWaiter` | src/vs/loader.js:1677-1681 | a run of the manager in which every requested script is answered and a module still waits on an errored one |
| `ModuleIds.NormalizeModuleId` | src/vs/loader.js:1060-1079 | the four rewrites give the id that a path normaliser with a stack gives; no segment but the last is `.`, and no segment but an empty one or `..` has an inner `..` after it |
| `ModuleIds.MatchesExactly` | src/vs/loader.js:1071 | the alternatives of the pattern match exactly the segments that are neither empty nor `..` |
| `ModuleIds.NormalRewrites` | src/vs/loader.js:1057-1059 | inside a path, `.` may be left out, and so may a name and the `..` after it, without a change of the normal form |
| `ModuleIds.ParentTakesExactly` | src/vs/loader.js:1057-1059 | `s/../t` normalises to `t` if and only if `s` is not empty and no dot segment |
| `ModuleIds.RemoveSelfSegments` | src/vs/loader.js:1063-1069 | deleting `/./` and a leading `./` keeps the normal form and leaves no inner `.` segment |
| `ModuleIds.RemoveParentPairs` | src/vs/loader.js:1070-1074 | deleting inner `segment/..` pairs keeps the normal form and leaves none |
| `ModuleIds.RemoveFirstPair` | src/vs/loader.js:1075-1076 | deleting a pair at the front keeps the normal form |
| `ModuleIds.IrreducibleIsNormal` | src/vs/loader.js:1061-1078 | an id that no rewriting matches is in normal form, so the order of rewriting does not matter |
| `ModuleIds.NormalIsFixed` | src/vs/loader.js:1061-1078 | normalising is idempotent |
| `ModuleIds.JoinSplit` | src/vs/loader.js:1061-1078 | an id is its segments joined by slashes, and no segment holds one |
| `ModuleIds.ResolveModule` | src/vs/loader.js:1083-1091 | an id whose first segment is `.` or `..`, and not its last, is read from the directory of the resolving module and normalised; any other id stays as it is |
| `ModuleIds.RelativeExactly` | src/vs/loader.js:1085-1086 | the checks for absolute and relative ids hold exactly for ids whose first segment is `.` or `..`, and not their last |
| `StreamTable.StreamTable.Insert` | cli/src/rpc.rs:575-584 | a stream enters with its write half in its record and an empty queue, and overwrites a record under its id; ownership and conservation are kept, and every half stays in one place, exactly if no stream is in the table under that id |
| `StreamTable.StreamTable.Write` | cli/src/rpc.rs:564-573 | data for a known stream is queued and a writer starts exactly if the write half is idle; data for an unknown one is dropped; ownership and conservation are kept |
| `StreamTable.StreamTable.StreamEnded` | cli/src/rpc.rs:279-285 | an end message starts a task that removes the stream, and changes no record by itself |
| `StreamTable.StreamTable.Remove` | cli/src/rpc.rs:543-562 | an idle stream is removed and its half handed to a closer, one with a writer is only marked ended; ownership and conservation are kept |
| `StreamTable.StreamTable.WriteLoopTurn` | cli/src/rpc.rs:602-621 | under the lock the writer takes the queue, or gives the half back, or removes an ended record and goes on to close; ownership and conservation are kept |
| `StreamTable.StreamTable.WriteItem` | cli/src/rpc.rs:623-627 | one item moves from the batch to the wire; conservation is kept |
| `StreamTable.StreamTable.FailItem` | cli/src/rpc.rs:623-627 | a failed write puts part of an item on the wire and loses the rest of the batch; what was written and what was lost is recorded in order, and conservation is kept |
| `StreamTable.StreamTable.Shutdown` | cli/src/rpc.rs:630-631 | a closer shuts its half down, once |
| `StreamsSteps.InsertExactly` | cli/src/rpc.rs:575-584 | registering a stream keeps ownership and conservation, and leaves every half in exactly one place, if and only if its id is not in the table, used before or not |
| `StreamsPlaces.OverwriteBreaks` | cli/src/rpc.rs:575-584 | after an insertion over a stream in the table, some half is in no place or some writer's record holds another half |
| `StreamsSteps.StepKeeps` | cli/src/rpc.rs:543-631 | a step, in any interleaving, keeps ownership and conservation if and only if it does not insert over a stream in the table |
| `StreamsTheorems.RunKeeps` | cli/src/rpc.rs:543-631 | a run from the empty table that never inserts over a stream in the table satisfies the invariant, ids used again included; a run keeps every half in one place throughout if and only if it never does so |
| `StreamsTheorems.CountedIdsNeverOverwrite` | cli/src/rpc.rs:397-400 | streams with ids from different calls of the counter, any 2^32 of them in a row, never overwrite each other, whatever else happens |
| `StreamsTheorems.OverwriteRun` | cli/src/rpc.rs:575-621 | a run that inserts over a stream with a writer: the writer puts the old half back, and the new half is in no place |
| `StreamsPlaces.OneOwner` | cli/src/rpc.rs:531-562 | every write half handed out is in exactly one place, told from table, tasks and shut halves: the record of its own stream, one writer or closer, or shut down |
| `StreamsTheorems.RecordsAndWriters` | cli/src/rpc.rs:596-622 | a writer's record exists, an idle record has an empty queue, and an ended record has a writer |
| `StreamsTheorems.ShutOnce` | cli/src/rpc.rs:557-561 | no half is shut down twice |
| `StreamsTheorems.DeliveryInOrder` | cli/src/rpc.rs:596-631 | in every state the bytes accepted are, in order, the pieces written and lost, the writer's batch and the queue, and the wire holds the pieces written |
| `StreamsTheorems.DeliveryExactly` | cli/src/rpc.rs:596-631 | written bytes, the batch and the queue are the accepted bytes in order if and only if no byte is lost |
| `StreamsTheorems.DeliveredIsPrefix` | cli/src/rpc.rs:596-631 | as long as no write follows a loss, the bytes delivered are a prefix of the bytes accepted |
| `StreamsTheorems.DeliveredIsSubsequence` | cli/src/rpc.rs:596-631 | for every stream, the bytes delivered are the accepted bytes at rising positions |
| `StreamsTheorems.PrefixOfAcceptedExactly` | cli/src/rpc.rs:623-627 | for every stream, these are the first positions without a gap if and only if no write follows a loss; where all bytes differ, the bytes delivered are a prefix of those accepted if and only if no write follows a loss |
| `StreamsTheorems.FailureLoses` | cli/src/rpc.rs:623-627 | a failed write loses exactly the rest of its segment and of its batch, which may be nothing |
| `StreamsTheorems.GapRun` | cli/src/rpc.rs:623-627 | a run in which a write fails after one byte of two and a third byte is then written: the bytes delivered are no prefix of the bytes accepted |
| `StreamsTheorems.ShutMeansDelivered` | cli/src/rpc.rs:612-631 | without a lost byte, a half that was shut down has delivered everything accepted for it, and at least everything received before its end message |
| `StreamsTheorems.ReceivedIsAccepted` | cli/src/rpc.rs:564-573 | data that arrives before the stream's end message is accepted, whatever tasks are under way |
| `StreamsTheorems.TurnsMakeProgress` | cli/src/rpc.rs:596-631 | every turn of a task, failed writes included, reduces the work left, so all tasks come to rest once messages stop |
| `StreamsTheorems.Drain` | cli/src/rpc.rs:596-631 | from every reachable state there is a schedule after which no task is left |
| `StreamsTheorems.RestMeansDelivered` | cli/src/rpc.rs:714-755 | with no task left, a stream without a lost byte has delivered everything accepted; a stream in the table has its half back, one out of it is shut down, and a stream asked to close is out of it |
| `StreamsTheorems.MessageIdsRepeatExactly` | cli/src/rpc.rs:397-400 | two message ids are equal exactly when a multiple of 2^32 ids was drawn between them |
| `Outgoing.Sender.RegisterStream` | cli/src/rpc.rs:453-479 | the started message is sent before any stream of the call has a reader; a closed channel starts no reader |
| `Outgoing.Sender.SendNext` | cli/src/rpc.rs:483-522 | a reader sends what it read, or the end; a failed send ends the reader without an end message |
| `Outgoing.StepKeeps` | cli/src/rpc.rs:453-524 | every step keeps the order and the contents of every stream, and the count of every call's messages |
| `Outgoing.StreamOrder` | cli/src/rpc.rs:453-524 | in every run, data and end of a stream come after its started message, and nothing about it comes after its end |
| `Outgoing.StreamContents` | cli/src/rpc.rs:483-522 | in every run, the data sent is a prefix of the data read, all of it once the end is sent, and all but the segment in hand while the channel is open |
| `Outgoing.ResponseAfterStarted` | cli/src/msgpack_rpc.rs:85-96 | in every run, up to every place in the channel, a call has no more responses than started messages |
| `Vlq.ToInt32` | scripts/playground-server.ts:849-868 | the result is a 32-bit signed number, and the argument itself when that fits |
| `Vlq.ToInt32Wraps` | scripts/playground-server.ts:849-868 | the 32-bit result differs from the argument by a multiple of 2^32 |
| `Vlq.DigitsRead` | scripts/playground-server.ts:849-868 | the digits written for a number are read back as that number and end where they end, whatever follows; of a negative one only the low digit is written |
| `Vlq.RoundTripExactly` | scripts/playground-server.ts:849-868 | a number survives the encoder and the reference reading if and only if its magnitude is below 2^30 |
| `Vlq.EncodesAlphabet` | scripts/playground-server.ts:815-822 | the digits of the encoder are the characters of the Base64 alphabet in order |
| `Vlq.DecodesAlphabet` | scripts/playground-server.ts:814-822 | the decoder gives each character of the alphabet, `=` included, its position, and 255 to every other byte |
| `Vlq.EncodeText` | scripts/playground-server.ts:849-868 | byte for byte, a number below 2^30 in magnitude is doubled, with one added if negative, and written in five-bit digits of the alphabet, lowest first, each but the last with the sixth bit set |
| `Vlq.ShiftPlaces` | scripts/playground-server.ts:772-774 | the decoder's 32-bit shift places a digit correctly whenever the placed digit is below 2^31, even at shift counts that wrap |
| `Vlq.AccumulateIsPartial` | scripts/playground-server.ts:770-775 | the decoder's running value is the number made of the digits read, for numbers below 2^31 |
| `Vlq.ConcludeIsSigned` | scripts/playground-server.ts:776-778 | the decoder's sign and halving give the reference value |
| `Vlq.DecodesEncodedExactly` | scripts/playground-server.ts:770-787 | the decoder's loop, run on the bytes that the encoder writes for a number and whatever follows them, gives the number and stops at their end if and only if its magnitude is below 2^30 |
| `Mappings.LexConcat` | scripts/playground-server.ts:716-795 | texts that read completely read, one after the other, as their tokens one after the other |
| `Mappings.SegmentMeans` | scripts/playground-server.ts:741-786 | a segment of four or five numbers reads as column, source, line and source column relative to the totals so far, in this order |
| `Mappings.ColumnMeans` | scripts/playground-server.ts:741-748 | a segment of one number reads as a bare column |
| `Mappings.SemicolonMeans` | scripts/playground-server.ts:760-765 | a semicolon ends the line and resets the column only |
| `Transcoder.FieldInStep` | scripts/playground-server.ts:779-786 | a number added to the current segment keeps the transcoder in step with the reference reading of the input |
| `Transcoder.CommitInStep` | scripts/playground-server.ts:741-757 | a committed segment reads, in the output, as the same position under the new source index |
| `Transcoder.SeparatorInStep` | scripts/playground-server.ts:760-768 | a comma or semicolon keeps the readings of input and output in step |
| `Scanning.ScanSeparator` | scripts/playground-server.ts:758-768 | a separator byte is never inside a number, and is the next token |
| `Scanning.ScanDigit` | scripts/playground-server.ts:769-787 | a digit byte continues the number under way or completes the next token with the value the decoder computes |
| `DynamicBuffer.DynamicBuffer.EnsureCapacity` | scripts/playground-server.ts:835-842 | afterwards there is room, and the contents are unchanged |
| `DynamicBuffer.DynamicBuffer.AddByte` | scripts/playground-server.ts:844-847 | the contents grow by the byte |
| `DynamicBuffer.DynamicBuffer.AddBuffer` | scripts/playground-server.ts:877-881 | the contents grow by the bytes, in order |
| `DynamicBuffer.DynamicBuffer.AddVLQ` | scripts/playground-server.ts:849-868 | the contents grow by the encoding of the number, for every number |
| `DynamicBuffer.DynamicBuffer.ToBuffer` | scripts/playground-server.ts:883-885 | the bytes given out are the contents, without the spare room |
| `SourceMaps.MakeSource` | scripts/playground-server.ts:680-697 | the content of a source ends its last line, and its line count is its number of newlines |
| `SourceMaps.CountNewlines` | scripts/playground-server.ts:888-894 | the count is the number of newline bytes |
| `SourceMapBuilder.SourceMapBuilder.AddSource` | scripts/playground-server.ts:716-795 | for every readable map, the output grows by the content; the map stays one line per output line with every source index in range if and only if the added map has nothing beyond the lines of its content, and its meaning then grows by exactly the source's own, line by line and with source names |
| `SourceMapBuilder.SourceMapBuilder.AddMappings` | scripts/playground-server.ts:729-795 | the mappings grow by text that reads as the source's lines under the new source indices, and end at a line start unless the added map overruns its content |
| `SourceMapBuilder.SourceMapBuilder.RemapSources` | scripts/playground-server.ts:720-728 | each source of the added map gets the index of its name, new names are appended once, and names stay distinct |
| `SourceMapBuilder.SourceMapBuilder.CommitSegment` | scripts/playground-server.ts:741-757 | one or four deltas are written against the location written before, and nothing when no field was read |
| `SourceMapBuilder.SourceMapBuilder.ReadTokens` | scripts/playground-server.ts:758-789 | the byte loop reads exactly the tokens of the input, counts its lines, and leaves output and input in step |
| `SourceMapBuilder.SourceMapBuilder.PadLines` | scripts/playground-server.ts:791-794 | semicolons are added up to the source's line count, and none if the map has as many lines already |
| `SourceMapBuilder.PadMeans` | scripts/playground-server.ts:790-794 | after padding, the text is at a line start and reads as the source's lines followed by empty ones |
| `SourceMapBuilder.AddedMeans` | scripts/playground-server.ts:716-795 | appending remapped lines keeps the map sound and adds the source's own meaning |
| `SourceMapBuilder.OverrunsContent` | scripts/playground-server.ts:758-794 | a map with something beyond the lines of its content leaves the output's map out of step |
| `SourceMapBuilder.SemicolonsAreNewlines` | scripts/playground-server.ts:710-714 | in a sound map the number of semicolons is the number of newlines of the output |
| `SourceMapBuilder.SourceMapBuilder.AddLine` | scripts/playground-server.ts:710-714 | an unmapped line is added, and the map stays in step with the output if and only if the text has no newline |
| `Bundle.Bundler.Visit` | scripts/playground-server.ts:505-514 | visiting emits new modules only, each reachable, and each after its dependencies except along cycles, and in list order |
| `Bundle.BundleOrder` | scripts/playground-server.ts:501-516 | every module reachable from the root is emitted exactly once, after each dependency that does not lead back to it; the dependencies of a module come in list order, but for one that an earlier dependency leads to or that another module's list puts before the module |
| `Bundle.RootListOrder` | scripts/playground-server.ts:509-514 | without cycles, the dependencies of the root come in list order, but for those that an earlier one leads to |
| `Bundle.AcyclicIsDependenciesFirst` | scripts/playground-server.ts:505-514 | without cycles, every dependency comes before its dependent |
| `Bundle.BundleWithDependencies` | scripts/playground-server.ts:501-525 | the order is that of `BundleOrder`; the output is the contents in that order and a closing line made of the map, and the map says of each line of the contents what that line's own module map says |
| `Keyring.PartsFit` | cli/src/auth.rs:330-352 | every stored part is non-empty and within the entry limit |
| `Keyring.PartsText` | cli/src/auth.rs:332-345 | the k-th part is the k-th step of the text, followed by the marker exactly if the step is full |
| `Keyring.PartsMarked` | cli/src/auth.rs:330-352 | every part but the last carries the marker, and the last does exactly when the length is a multiple of the step |
| `Keyring.ReadParts` | cli/src/auth.rs:308-328 | the parts of a string, wherever they stand, read as the string, and reading goes on past them exactly at a multiple of the step |
| `Keyring.RoundTripExactly` | cli/src/auth.rs:308-352 | whatever was stored before, reading after storing gives the string back if and only if its length is not a multiple of the step; at a multiple on a keyring without leftovers it gives nothing |
| `Keyring.KeyringStorage.GetNextEntry` | cli/src/auth.rs:294-305 | entries are opened in order, and handle i names entry i |
| `Keyring.KeyringStorage.Store` | cli/src/auth.rs:330-352 | all parts are set if none of their entries fails; otherwise exactly the parts before a failing entry are |
| `Keyring.KeyringStorage.Read` | cli/src/auth.rs:308-328 | an error is returned exactly when an entry that is reached fails; otherwise the result is the text up to the first part without the marker, or nothing if a part is missing |
| `Framing.ParseConserves` | cli/src/msgpack_rpc.rs:139-162 | the frames' bytes and what is left are the stream, with nothing dropped or read twice |
| `Framing.ParseFrames` | cli/src/msgpack_rpc.rs:139-165 | each frame is the message that the decoder finds where the frame begins, with its length |
| `Framing.ParseMore` | cli/src/msgpack_rpc.rs:139-162 | parsing what arrives later continues from what was left, with the frames of the whole stream |
| `Framing.ParseStops` | cli/src/msgpack_rpc.rs:139-162 | parsing stops only at an incomplete or an invalid message |
| `Framing.ErrorIsFinal` | cli/src/msgpack_rpc.rs:139-162 | bytes after an invalid message change neither the frames nor the verdict |
| `Framing.FrameReader.Decode` | cli/src/msgpack_rpc.rs:139-162 | a complete message is taken off the buffer, and an incomplete or invalid one leaves the buffer alone |
| `Framing.FrameReader.Read` | cli/src/msgpack_rpc.rs:66-98 | one read dispatches every complete message buffered so far, in order, and keeps the rest |
| `Framing.ReadAll` | cli/src/msgpack_rpc.rs:66-98 | however the stream is cut into reads, the frames dispatched and the verdict are those of the whole stream |
| `DownloadCache.FiveMostRecent` | cli/src/download_cache.rs:119-138 | in every run of touches from an empty list, whatever evictions fail, the list is the most recently touched names, most recent first: all of them up to five, and more than five only by evictions that failed |
| `DownloadCache.RecentNames` | cli/src/download_cache.rs:119-124 | the list of recent names holds the names of the history and no others |
| `DownloadCache.RecentInOrder` | cli/src/download_cache.rs:119-124 | each name in it was touched after the last touch of any name behind it |
| `DownloadCache.TouchTaken` | cli/src/download_cache.rs:119-138 | touching the first names of a list gives the first names of the touched list |
| `DownloadCache.TouchKeeps` | cli/src/download_cache.rs:119-138 | a touch puts the name first, drops a name only with its directory, never drops the touched one, and lets the list outgrow five only by evictions that failed |
| `DownloadCache.TouchExactly` | cli/src/download_cache.rs:119-138 | the name is taken from its place and put first; when there are then more than five, the last name goes with its directory unless that cannot be removed; all else stays |
| `DownloadCache.DeleteExactly` | cli/src/download_cache.rs:63-72 | a deletion takes out the name and its directory and nothing else, or fails and changes nothing |
| `DownloadCache.CreateExactly` | cli/src/download_cache.rs:78-117 | a creation touches no directory but that of the name, its staging directory and an evicted one; when it succeeds the staging directory is gone and the name is first |
| `DownloadCache.CreateKeeps` | cli/src/download_cache.rs:78-117 | creating keeps the list distinct and its length bounded by five plus failed evictions |
| `DownloadCache.RunKeeps` | cli/src/download_cache.rs:52-138 | any run of calls keeps the invariant, and at most five names if every eviction succeeds |
| `DownloadCache.ProducedStays` | cli/src/download_cache.rs:63-138 | a directory that was produced goes away only with its name, or as the staging directory of a creation |
| `DownloadCache.DownloadCache.Touch` | cli/src/download_cache.rs:119-138 | the list and the directories change together as the touch step says, and the invariant is kept |
| `DownloadCache.DownloadCache.Exists` | cli/src/download_cache.rs:52-60 | the answer is whether the directory is there; a directory that was found is still there after its touch, and its name first; otherwise nothing changes |
| `DownloadCache.DownloadCache.Delete` | cli/src/download_cache.rs:63-72 | the deletion succeeds exactly if the directory is absent or removable; then exactly the name, from its place in the list, and its directory are gone, and otherwise nothing changes |
| `DownloadCache.DownloadCache.Create` | cli/src/download_cache.rs:78-117 | the call succeeds exactly if the directory is there afterwards, and a new directory leaves no staging directory |
| `DownloadCache.RenameWithRetries` | cli/src/download_cache.rs:102-114 | the renaming succeeds exactly if the staging directory is present and one of the 21 attempts does |

## Left out

- DefineModule: a factory is taken not to catch what escapes from a definition that it makes itself.
- Configuration changes: `catchError` is fixed when the manager is made.
- Plugin dependencies, the `exports` values that factories build, synchronous `require`, build information and
  recorded statistics of the loader: they do not take part in the counting of dependencies.
- Script loading itself, path configuration and the fallback over several paths: a load is a request and, later, an
  answer or a failure from outside.
- Errorbacks that define modules or throw: an errorback only leaves its event in the log. Factories that define
  modules, to any depth, are modelled.
- OnLoadError: is modelled between cascades, since the failure of a script arrives as an event of its own.
- The table of pending RPC calls, request dispatch and JSON-RPC framing.
- StreamOrder: and the other theorems of `Outgoing` speak of runs in which no stream id is registered twice, which
  `MessageIdsRepeatExactly` gives for any 2^32 ids in a row. The stream table is modelled with ids used again.
- SendNext: the bounded channel is modelled as one send per step, without the waiting of a full channel.
- RegisterStream: that registration also inserts the write halves is modelled by `StreamTable`, not in `Outgoing`.
- Drain: shows that a schedule to rest exists and `TurnsMakeProgress` that none runs forever; that the runtime gives
  every task its turn is an assumption about the scheduler.
- AddSource: requires maps that read well, with segments of one, four or five fields, with numbers, columns and lines
  below 2^30 in magnitude, source indices in range, and no more than 2^30 source names in all. On other maps the
  builder throws or writes indices that mean nothing. The name of a five-field segment is dropped, as the output map
  has none.
- BundleWithDependencies: computes the visiting order first and then adds the sources in that order, where the source
  adds each source at the end of its visit. The JSON and base64 of the closing line are a parameter.
- MakeSource: a missing map is an empty text; a map given as bytes and one given as a string are the same.
- Keyring.RoundTripExactly: requires a sealed text that does not end in the marker. Sealing writes JSON or base64,
  and neither ends in `>`. Slicing is by character; sealed texts are ASCII.
- `clear` of the keyring, the thread wrapper around it, encryption and serialisation.
- Decode: takes the deserializer as a parameter whose verdict on a prefix stands when bytes follow. The fixed set of
  message types is not modelled.
- Create: the work of filling the staging directory, the delay between renames and other processes are outcomes
  given by a parameter. The state file is a field of the object.
- TaskId, Half and the observers `history`, `current`, `running`, `wire`, `fate`, `read` and `ended` of the stream
  models are names for what the runtime and the peer see; the source does not store them.
