# A verified model of bustlinker's traversals, readers and state machines

bustlinker is a fork of go-ipfs. This project models the self-contained algorithms of that node in Dafny 4.11 and
proves what they are meant to guarantee. `dafny verify dfyconfig.toml` checks everything.

The algorithms and the module that models each of them:

| module | what it models |
|---|---|
| `Prelude` | types that several modules share |
| `Dags` | Merkle-DAGs: a finite table of links, paths, reachability |
| `RefTable`, `RefRuns`, `Refs`, `RefPaths`, `RefSound` | `ipfs refs`: the depth-limited traversal that explores a node again when it meets it higher up; `RefTable` says what its table means, `RefRuns` is the traversal as functions, `Refs` the writer itself, and the others say what it lists |
| `Tar`, `TarFormat` | the tar export reader, a state machine of nested readers, against a recursive definition of the archive, and that against a grammar |
| `Walks` | the concurrent DAG walk with a shared visited set, as garbage collection and pin listing use it |
| `Gc` | mark and sweep |
| `PinLs`, `PinVerify` | listing pins by precedence; verifying pins with a memo table |
| `Peering`, `PeeringService`, `PeeringRemoval`, `PeeringCounts` | the reconnecting peer handler, and the service as interleaved steps: its invariant, removed peers, conservation of checks and dials |
| `Resolve` | recursive IPNS resolution over channels, as interleaved steps |
| `Cat` | `ipfs cat`: an offset and a limit across several files |
| `Base32`, `Base32Number`, `Keystore` | base 32, what it means as a number, key file names and the keystore on disk |
| `Publisher` | sequence numbers of IPNS records |
| `Streams`, `SharedRepos`, `ReqLog` | the p2p stream registry, repositories opened once, the request log |

How the environment appears:

- Random numbers, clocks, fetch failures, cancelled contexts, I/O errors, the order of concurrent work and the sizes
  of buffers are chosen arbitrarily, so every claim holds for all of them. Flags such as `mayFail` and `mayCancel` say
  whether failures from outside occur at all; without them the contracts leave only the failures that the data cause.
  In `Refs` the fate of the n-th fetch and of the n-th emission is a parameter, so that single runs can be exhibited.
- `Dag` holds the links that can be had. Whether a block had to be fetched for them is the library's affair.
- Code that updates fields in place is a class or a method with loop invariants. Code whose difficulty is interleaving
  (`PeeringService`, `Resolve`) is a state machine with one step for each critical section or channel operation, and
  the theorems range over all runs.
- A DAG is acyclic where the code relies on it (`Ranked`: a rank falls along every link), because a block names its
  children by hash. The walks of `Walks` and `Gc` do not need that.

Things that turn out differently from what one might expect:

- **A lost peer may never be dialled again.** If a dial succeeds and the connection is lost before the handler has
  noticed the success, the handler keeps the spent timer, every later check takes that for a timer that is running,
  and no further dial is made (`PeeringService.StrandedHappens`, `StrandedStays`). `RedialledUnlessStranded` shows
  that this is the only way: in every other case a dial is on its way. `LostForGood` says the same of every run in terms
  of the steps that have been made.
- **The handler of a removed peer may dial for ever.** A start check that was queued before the removal still arms a
  timer, and every failed dial arms it again, although the handler has been stopped (`PeeringRemoval.RemovedDialsOn`).
  `RemovedHandler` shows that nothing else wakes it: a handler removed with no start check queued stays silent, and it
  starts at most as often as there were such checks.
- **Garbage collection may sweep blocks below internal pins.** The comment on `GC` promises to keep all blocks the
  pinner uses, but direct pins are put into the visited set before the internal pins are walked, so that walk does
  not go below a direct pin (`Gc.InternalPinsCutOff`). `InternalPinsMarked` gives the exact condition on the pins and
  the links.
- **After a failed root, `ipfs refs --unique` leaves out parts of later roots without an error.** A CID is recorded
  before its node is fetched, and a node met again at the same depth or below is not entered again. So what lies only
  behind nodes whose exploration was broken off is lost to the roots that follow, although no fetch of it was tried and
  those roots report success (`RefRuns.LossHappens`). `NewlyListed` says exactly what a successful call lists on any
  table, and `AllListedUnlessCutOff` when that is everything in range. Without failures nothing is lost (`Refs.Run`), and
  without a depth limit only failures from outside do harm: a root with nothing missing below it is listed in full
  whatever the other roots miss (`RefSound.SoundRootsListed`). Under a limit even that fails (`RefSound.LimitLoses`).
- **IPNS sequence numbers ascend until they wrap.** The number after 2^64 - 1 is 0, so a stored record with that number
  makes the next one fall (`Publisher.NumberFalls`); `AscendingUnlessWrapped` shows that this is the only way. A number
  stands for one value in every history of up to 2^64 records, wrapped or not, and not in every longer one
  (`NumbersStandForValues`).
- **Counters that wrap.** A repository handle given back when the 32-bit count is one, although the number of holders is
  not, closes a repository that others hold or that was closed before, and takes whatever is active under its key out
  of use (`SharedRepos.OnlyOne.Close`, `WrongLastHolder`; the runs `SurplusCloses` and `TooManyHolders`). A stream
  registered under an id that is still in use after 2^64 streams spoils the counts (`Streams.CountedCollision`; the run
  `ReusedId`). Both contracts give the exact condition under which the invariant survives.
- **A nil entry makes every later clean-up of the request log panic.** A nil entry is never removed
  (`ReqLog.NilStays`). The panic can leave entries in the log twice and, in `ClearInactive`, the time to keep at 0 (the
  run `Doubled`); active entries are not lost even then (`CleanedUpHolds`).

## Model

| member | source | states |
|---|---|---|
| Refs.RefWriter.Visit | core/commands/refs.go:269-315 | which nodes are entered and written, and the new table: over the limit nothing, without unique everything, with unique exactly the CIDs not yet recorded at this depth or above; afterwards the CID is recorded at this depth or above, and only a new CID is written |
| Refs.RefWriter.FetchAndWrite | core/commands/refs.go:226-241 | an edge is emitted only for a node that has been fetched, and only if asked for; a failure emits nothing |
| Refs.RefWriter.WriteLink | core/commands/refs.go:211-255 | one turn of the loop is the turn of the functional traversal; the count is the number of edges it adds |
| Refs.RefWriter.WriteRefsRecursive | core/commands/refs.go:207-258 | the loop with its early return is the functional traversal of the node; the count is the number of edges it adds |
| Refs.RefWriter.WriteRefs | core/commands/refs.go:199-205 | the same from a root, on a table that earlier calls, failed ones too, have filled |
| RefRuns.NodeRunUnique | core/commands/refs.go:207-315 | with unique, from a node on an open path: new or lower entries are lengths of open paths, newly written CIDs are newly recorded ones, and without a failure every newly recorded CID is written and has had its children recorded; the writer stays a listing without repetition |
| RefRuns.RootRunUnique | core/commands/refs.go:199-315 | the same for a root, on any table that earlier calls leave behind; unless the environment fails, a failure means that the root or a block in range of it is missing |
| RefRuns.NewlyListed | core/commands/refs.go:199-315 | a successful unique call, on any table that earlier calls leave behind, newly writes exactly the CIDs that were not recorded and that a link path within the limit reaches on which no node was recorded at its position or above |
| RefRuns.AllListedUnlessCutOff | core/commands/refs.go:199-315 | after it, everything in range of the root has been listed if and only if nothing in range is unlisted and either recorded already or reached by no such path |
| RefRuns.LossHappens | core/commands/refs.go:199-315 | a run in which one root fails, the next succeeds, and a block in its range that is present is met by neither |
| RefRuns.RootRunPlain | core/commands/refs.go:199-286 | without unique a root adds its preorder listing, or a beginning of it after a failure |
| RefTable.OpenIsRecorded | core/commands/refs.go:287-315 | once a traversal has finished, the end of every open path is recorded at that depth or above |
| RefTable.ExploredIsExact | core/commands/refs.go:207-315 | a table whose entries are path lengths and whose nodes are explored holds exactly the CIDs within 1 to D links of a root, and under a limit their shortest distances |
| Refs.Run | core/commands/refs.go:112-127 | any list of roots on one writer: every root has its turn unless an error cannot be emitted; a root that goes well is there and, unless the environment fails, one that does not is missing or has a block in range missing; with unique every edge is a link, no CID is written twice, none out of range, every root that goes well has its children recorded, without a limit every root with nothing missing below it is listed in full, and if all go well exactly the CIDs in range are written and the recorded depths are their shortest distances from the roots; without unique the output is one part for each root in order, its preorder listing if it goes well and a beginning of that otherwise |
| RefRuns.PartsHold | core/commands/refs.go:121-127 | without unique the listing of every root that goes well stands in the output as a whole |
| RefSound.NodeRunFinishes | core/commands/refs.go:207-315 | without a limit, whatever a traversal records with nothing missing below it is written and has its children recorded, even if the traversal fails elsewhere |
| RefSound.SoundRootsListed | core/commands/refs.go:121-127 | hence everything below a root with nothing missing is listed, whatever other roots miss |
| RefSound.LimitLoses | core/commands/refs.go:121-127 | under a limit that fails: a reliable run in which a root with everything in range there succeeds and is not listed in full |
| RefPaths.EdgesFollowPaths | core/commands/refs.go:207-286 | the j-th edge of the listing without unique is the last edge of the j-th link path |
| RefPaths.PathsAreAll | core/commands/refs.go:207-286 | the paths listed are exactly the non-empty link paths within the limit |
| RefPaths.PathsAreSorted | core/commands/refs.go:207-286 | they come in preorder, so each comes once |
| RefPaths.AllEdgeTargets | core/commands/refs.go:207-315 | the targets listed without unique are the CIDs that unique lists |
| Tar.ReadFile | tar/format.go:217-221 | a file reader delivers the next bytes, any number of them, and counts them; the end or the error comes only when all are delivered |
| Tar.TarReader.Read | tar/format.go:115-197 | bytes delivered and what is left make up what was left before; end of file only when nothing is left; an error only where the archive has it; every read into a non-empty buffer lowers a bound on the reads to come |
| Tar.TarReader.ReadHeader | tar/format.go:117-124 | the same for the header, which comes first |
| Tar.TarReader.ReadData | tar/format.go:137-147 | the same for file data; its end sets the padding |
| Tar.TarReader.ReadPad | tar/format.go:150-154 | the same for the padding |
| Tar.TarReader.Next | tar/format.go:156-194 | taking up a link leaves what is still to be delivered unchanged, or reports the error the archive has there |
| Tar.TarReader.Descend | tar/format.go:188-194 | a nested reader stands for the children's archive |
| Tar.LeftNext | tar/format.go:156-196 | the archive of a list of links is what the reader's fields stand for after its first link has been taken up |
| Tar.ExportTar | tar/format.go:201-210 | opens exactly the roots marked as tar archives, and the reader has the whole archive to deliver |
| Tar.ReadAll | tar/format.go:115-210 | for every tree, every sequence of buffer sizes and every pattern of short reads, the bytes read are the recursive export with its end or error, after a bounded number of calls |
| TarFormat.ExportIsTar | tar/format.go:115-197 | the recursive export ends well with some bytes if and only if they are headers, each followed by the file behind its first link named "data", filled up with zeros to the next multiple of 512, or else by the archive of its links |
| TarFormat.ExportBreaksOff | tar/format.go:115-197 | it breaks off with an error after some bytes if and only if the first node that cannot be had, is of another kind or cannot be read to its end has that error, and nothing of a node whose file cannot be opened is delivered |
| TarFormat.PaddedIsExport | tar/format.go:137-154 | a file is followed by fewer than 512 zeros, up to the next multiple of 512 |
| Walks.Walk | gc/gc.go:155-164 | whatever the order of visits and fetches: a finished walk has visited its start and the children of everything it visited, and only what is reached along nodes not visited before |
| Walks.ExpandedIsExact | gc/gc.go:155-164 | hence the visited set is determined by the links alone |
| Walks.ExpandedTransitive | gc/gc.go:155-164 | walks that share a visited set add up to one walk from all their roots |
| Gc.Descendants | gc/gc.go:134-166 | without errors exactly what the roots reach has been added, and all of it is secure and its links can be had; an error that is not a cancellation has a reached node to blame |
| Gc.ColoredSet | gc/gc.go:170-250 | the marked set is exactly everything below recursive pins and best-effort roots, the direct pins, and what internal pins reach without passing anything already kept; it is given only if marking comes across no node that is insecure or whose links cannot be had, and if so always, unless the context is cancelled or the pins cannot be listed |
| Gc.InternalPinsMarked | gc/gc.go:223-243 | everything below the internal pins is marked if and only if each child of a direct pin below them is itself a direct pin, below a recursive pin or a best-effort root, or met by the last walk on a way that avoids all of these |
| Gc.InternalPinsCutOff | gc/gc.go:31-39 | that can fail: a block below an internal pin that is not marked |
| Gc.Blockstore.DeleteBlock | gc/gc.go:83-94 | removes one block, or reports an error having removed it or not |
| Gc.Sweep | gc/gc.go:72-111 | deletes exactly what is not marked; reports on each such block once, removed or not to be deleted, truly; a failed deletion does not end the sweep and is summed up at its end |
| Gc.GC | gc/gc.go:40-129 | nothing is deleted if marking fails or blocks or pins cannot be listed, nothing marked is ever deleted, what lies below recursive pins stays, a full run leaves exactly the marked blocks; unless cancelled or unable to list, the run aborts if and only if some node cannot be marked |
| PinLs.AddToResultKeys | core/coreapi/pin.go:227-241 | emits exactly the keys not visited before, each once |
| PinLs.Keys | core/coreapi/pin.go:292-292 | the members of the set in some order |
| PinLs.WalkBelow | core/coreapi/pin.go:275-291 | the walks that skip their roots find exactly the nodes one or more links below a recursive pin |
| PinLs.PinLsAll | core/coreapi/pin.go:222-335 | every query lists each CID once; the full listing gives it as recursive, else direct, else indirect, and its indirect part is the indirect listing; unless cancelled or unable to ask for the pins, a listing fails if and only if it walks and links at or below a recursive pin are missing |
| PinVerify.StatusMeaning | core/commands/pin.go:676-712 | plain recursion reports a pin broken exactly when a faulty node is reached below it, and with explanations lists exactly those nodes with their faults |
| PinVerify.OkMeansSound | core/coreapi/pin.go:166-190 | a pin is ok exactly when every node below it has an acceptable hash and links that can be had |
| PinVerify.Verifier.CheckPin | core/commands/pin.go:676-712 | the memoised recursion gives what plain recursion gives, for any table it has filled |
| PinVerify.PinVerify | core/commands/pin.go:664-730 | the report is that of plain recursion for each pin in turn, up to a cancellation |
| PinVerify.ReportInOrder | core/commands/pin.go:716-727 | that report has one entry for each pin that is reported, in the order of the pins |
| PinVerify.ReportMeaning | core/commands/pin.go:716-727 | a pin is reported with its status if and only if sound pins are asked for or a node at or below it has a bad hash or links that cannot be had |
| Peering.PeerHandler.NextBackoff | peering/peering.go:87-100 | one back-off for some admissible random numbers; both bounds given to the generator are positive; the delay stays between 5 s and 10 min |
| Peering.BackoffPaced | peering/peering.go:87-100 | one back-off keeps the pace: after k of them the delay is above 9 min or at least 5 s times 1.5^k rounded down; a fresh delay becomes 7.5 s to 12.5 s |
| Peering.BackoffRange | peering/peering.go:87-100 | exactly the delays that can follow a delay d: 1.5 d up to 2.5 d within 10 min; if 2.5 d is above that, also 9 to 10 min; and 10 min after 10 min |
| Peering.TwelveBackoffs | peering/peering.go:20-31 | whatever is drawn, a new handler is above 9 min after n back-offs in a row if and only if n is at least twelve |
| Peering.LateBackoff | peering/peering.go:87-100 | from the twelfth back-off in a row on, the delay is above 9 min and at most 10 min |
| Peering.PeerHandler.StartIfDisconnected | peering/peering.go:140-149 | arms a timer only if there is none and the peer is not connected |
| Peering.PeerHandler.StopIfConnected | peering/peering.go:127-137 | drops the timer and resets the delay only if there is a timer and the peer is connected |
| Peering.PeerHandler.BackOff | peering/peering.go:108-120 | after a failed dial the timer is armed again if it still exists |
| Peering.PeerHandler.Stop | peering/peering.go:76-85 | cancels the handler and drops the timer, keeping the delay |
| PeeringService.WorkSteady | peering/peering.go:102-149 | every piece of a handler's work keeps the pace of its delay; a handler that was never stopped has a fresh delay whenever it has no timer; a fired timer has a dial running or a dial that succeeded; a disconnected peer's handler does not lose its timer or its pending check, and a connected one's keeps the check that will drop its timer |
| PeeringService.FreshStart | peering/peering.go:140-149 | a handler that was never stopped waits 7.5 s to 12.5 s before its first dial |
| PeeringService.FirstWait | peering/peering.go:140-149 | so does, in every reachable state of a service not stopped, the handler of a registered peer that has no timer |
| PeeringService.StepKeepsInv | peering/peering.go:170-286 | every step keeps the invariant |
| PeeringService.RunsKeepInv | peering/peering.go:170-286 | in every state of every run: the protected peers are the registered ones; while the service runs and is notified, a registered peer that is not connected has a timer handle or a start check to come, and a connected one has no timer handle or a stop check to come; before Start nothing is done; removed handlers are cancelled, and registered ones if and only if the service has been stopped; every handler is steady |
| PeeringService.RedialledUnlessStranded | peering/peering.go:102-149 | a registered, disconnected peer of a running service has a dial on its way if and only if its handler does not hold the spent timer of a dial that succeeded |
| PeeringService.StrandedStays | peering/peering.go:102-149 | a stranded peer stays so under every step but an outside connection, its removal, or Stop |
| PeeringService.StrandedHappens | peering/peering.go:102-149 | a run that leaves a peer stranded with nothing pending |
| PeeringService.LostForGood | peering/peering.go:102-149 | in every run, a registered peer that is lost while the service runs is not dialled again if and only if no dial is under way, its timer fired, a dial has succeeded since, and since the firing no dial has failed and no stop check has found the peer connected |
| PeeringService.FiredSince | peering/peering.go:102-149 | a timer that fired stays spent, whatever else happens, until a dial fails, a stop check finds the peer connected, or the handler is stopped |
| PeeringRemoval.RemovalStops | peering/peering.go:248-259 | removing a peer leaves its handler without a timer |
| PeeringRemoval.RemovedHandler | peering/peering.go:102-149 | in every run, the handler of a removed peer gets a timer at most as often as start checks were queued for it; with none queued it has no timer again and makes no dial beyond those running |
| PeeringRemoval.QueuedCheckStarts | peering/peering.go:140-149 | a queued start check does arm a timer once the peer is not connected |
| PeeringRemoval.RemovedDialsOn | peering/peering.go:102-125 | a run after which a removed, cancelled handler has dialled any number of times and is about to dial again |
| PeeringCounts.WorkConserved | peering/peering.go:102-149 | in every run the start checks, stop checks and dials of a handler that are queued or running are those begun less those ended; a stop check follows every dial, however it went |
| Resolve.StepInv | namesys/base.go:42-113 | every channel operation keeps the invariant: at most one result is on its way up, it is the verdict of the last lookup, and each goroutine sends it once |
| Resolve.NotStuck | namesys/base.go:57-111 | until resolve returns, some channel operation is possible |
| Resolve.RunInv | namesys/base.go:23-113 | every state of every run keeps the invariant |
| Resolve.RunWork | namesys/base.go:23-113 | if the chain ends within m lookups, every run makes at most m lookups and 5m + 1 operations |
| Resolve.ResolveIsChain | namesys/base.go:23-113 | with a depth n of at least 1, every schedule makes at most n lookups and returns the first value that is not an IPNS name, the n-th value with ErrResolveRecursion, the first error, or ErrResolveFailed if a lookup yields nothing |
| Resolve.UnlimitedResolve | namesys/base.go:23-113 | without a limit, a resolution that returns has followed the chain to its end, and never gets stuck before; if the chain ends within m lookups, it makes at most m of them and 5m + 1 operations |
| Resolve.ResolveDecides | namesys/base.go:23-113 | in terms of the lookups alone: the names looked up are each the IPNS value of the one before, and the result is the last value if it is not an IPNS name, the last value with ErrResolveRecursion only if as many lookups were made as the limit allows, the last error, or ErrResolveFailed if the last lookup yields nothing |
| Cat.OpenAt | core/commands/cat.go:146-168 | the reader of a file adds the bytes from the offset on, cut where the limit is reached |
| Cat.Cat | core/commands/cat.go:114-171 | the readers concatenate to the first max bytes after the offset in the files\' concatenation; the length is their number as an uint64, exact under a limit; the first path that cannot be had, is no file, or fails to be opened at its offset fails the command, unless the limit was reached before |
| Base32.DecodeEncode | keystore/keystore.go:164-189 | decoding gives back every byte string that was encoded |
| Base32.LowerUpper | keystore/keystore.go:172-180 | lower-casing and upper-casing encoded text gives it back |
| Base32Number.EncodingIsNumber | keystore/keystore.go:164-173 | the encoded text is the number of the bytes in base 32 over the alphabet A to Z, 2 to 7, shifted to fill up the last of the characters needed |
| Base32Number.DecodableText | keystore/keystore.go:175-189 | text decodes if and only if it consists of that alphabet and line breaks |
| Keystore.DecodeEncoded | keystore/keystore.go:164-189 | every non-empty name comes back from its file name |
| Keystore.FileNameText | keystore/keystore.go:164-173 | the file name is "key_" and the encoded name in lower case |
| Keystore.DecodableFile | keystore/keystore.go:175-189 | a file name decodes if and only if it is "key_" and base 32 text in either case |
| Keystore.FSKeystore.Has | keystore/keystore.go:61-75 | tells whether the name has a key, or that the disk failed |
| Keystore.FSKeystore.Put | keystore/keystore.go:78-103 | adds one key and never replaces one; fails only for an empty or existing name unless the disk does; a failed write leaves a broken key behind |
| Keystore.FSKeystore.Get | keystore/keystore.go:107-124 | the key last put under the name, or why there is none, or that the disk failed |
| Keystore.FSKeystore.Delete | keystore/keystore.go:127-136 | removes that key and no other, or changes nothing |
| Keystore.FSKeystore.List | keystore/keystore.go:139-162 | in any directory, exactly the names that files decode to, among them every live key; where there are only key files, which Put and Delete keep so, exactly the live names, once each |
| Keystore.ListsNames | keystore/keystore.go:139-162 | the same for the names of any listing of the directory |
| Publisher.IpnsDsKeyInjective | namesys/publisher.go:52-54 | different peers have different record keys |
| Publisher.IpnsDsKeyText | namesys/publisher.go:52-54 | the key is "/ipns/" and the id as a base 32 number, and decodes to the id |
| Publisher.IpnsPublisher.GetPublished | namesys/publisher.go:108-138 | the stored record or, if there is none and routing is asked, the routing system's |
| Publisher.IpnsPublisher.UpdateRecord | namesys/publisher.go:140-189 | stores one more record under the key of the peer alone; it has the given value, and its number is that of the stored or else the routed record, plus one if the value changes, or 0 if there is neither; an error leaves everything as it was or this record stored; the history of every key stays sequential |
| Publisher.AscendingUnlessWrapped | namesys/publisher.go:155-160 | the numbers of a history never fall if and only if no change of value follows the largest number |
| Publisher.NumberFalls | namesys/publisher.go:155-160 | a change of value after the record with the largest number makes the number fall |
| Publisher.NumberCountsChanges | namesys/publisher.go:155-160 | the number counts the changes of value modulo 2^64 |
| Publisher.SameNumberSameValue | namesys/publisher.go:155-160 | among up to 2^64 records of a key, those with the same number have the same value, wrapped or not |
| Publisher.NumbersStandForValues | namesys/publisher.go:155-160 | that holds of every history of n records if and only if n is at most 2^64 |
| Streams.StreamRegistry.Register | p2p/stream.go:75-87 | adds the stream, new or registered before, under the next id; the counts and tags stay exact if and only if that id is not in use, and until the counter wraps it never is |
| Streams.CountedCollision | p2p/stream.go:75-87 | registering under an id in use makes the counts wrong |
| Streams.ReusedId | p2p/stream.go:75-87 | the run in which that happens: a stream outlives 2^64 - 1 others |
| Streams.StreamRegistry.Deregister | p2p/stream.go:90-106 | removes one stream if it is there; the counts and tags stay exact |
| Streams.StreamRegistry.Close | p2p/stream.go:109-120 | removes what is registered under the stream\'s last id, which for a stream registered once is exactly this stream; a second time changes nothing |
| Streams.CountedLess | p2p/stream.go:98-103 | the entry and the tag of a peer go with its last live stream |
| SharedRepos.OnlyOne.Open | repo/onlyone.go:26-48 | hands out the one open repository of a key, opening it only if there is none |
| SharedRepos.OnlyOne.Close | repo/onlyone.go:59-72 | the last holder closes the repository, once, and takes it out of use; closing more often than opening changes nothing but the count until that is one again; the invariant survives if and only if a count of one means one holder, and what happens otherwise |
| SharedRepos.WrongLastHolder | repo/onlyone.go:50-67 | the count is one without there being one holder exactly when the balance is off by a multiple of 2^32 |
| SharedRepos.SurplusCloses | repo/onlyone.go:59-72 | the run in which the 2^32-th surplus Close closes a repository again and takes the newer one, still held, out of use |
| SharedRepos.TooManyHolders | repo/onlyone.go:46-72 | the run in which one of 2^32 + 1 holders closes the repository for all |
| SharedRepos.OnlyOne.OneOpen | repo/onlyone.go:26-72 | the open repositories of a key are the active one, or none |
| ReqLog.ReqLog.Compact | commands/reqlog.go:68-79 | the two-index loop is the order-preserving selection of the entries that stay; it panics if and only if there is a nil entry, leaving the selection so far in front of the entries as they were |
| ReqLog.CleanedUpHolds | commands/reqlog.go:68-79 | every active entry that was added is in the log after a clean-up, even one that panicked |
| ReqLog.NilStays | commands/reqlog.go:68-79 | a clean-up of a log with a nil entry panics and leaves one, so every later one does; without one it selects |
| ReqLog.Doubled | commands/reqlog.go:50-79 | a run after which an active entry is in the log twice and the time to keep is 0 |
| ReqLog.ReqLog.MaybeCleanup | commands/reqlog.go:60-66 | cleans up at multiples of ten entries only |
| ReqLog.ReqLog.AddEntry | commands/reqlog.go:37-47 | the new entry, which may be nil, comes last; every added entry that is active is in the log and, unless a clean-up panicked, in order of arrival |
| ReqLog.ReqLog.Finish | commands/reqlog.go:102-110 | the entry becomes inactive now; the active ones stay; a nil entry is a panic |
| ReqLog.ReqLog.ClearInactive | commands/reqlog.go:50-58 | leaves the active entries and those that end in the future, and exactly the active ones if and only if no other ends in the future; restores the time to keep unless it panicked |
| ReqLog.ReqLog.SetKeepTime | commands/reqlog.go:82-86 | sets the time to keep and nothing else |
| ReqLog.KeepsSelected | commands/reqlog.go:68-79 | selecting at least the active entries keeps all active arrivals, in order |
| ReqLog.StayingMeaning | commands/reqlog.go:68-79 | the entries that stay are the active ones and those that ended less than the time to keep ago |

## Left out

- Resolve.ResolveIsChain: a lookup yields at most one result. Streams of several results, which the DHT resolver can yield, and cancellation from outside are not modelled.
- Cat.Cat: a file does not change its size between the two times it is asked.
- Gc.ColoredSet: that each failure to get links is reported on the output channel as it is met is not modelled, only that marking fails.
- Gc.GC: the datastore's own collection after the sweep is not modelled, nor the lock that keeps writers out meanwhile.
- PeeringService.RunsKeepInv: the addresses of a peer, which AddPeer replaces, are not part of the state; reading whether a peer is connected and acting on it is one step, since the handler's lock keeps other work on the handler out.
- Base32.DecodeEncode: the treatment of line breaks and of incomplete last groups follows Go's encoding/base32, which is not part of the repository.
- The DAG walk is that of the merkledag library, modelled by what its callers rely on: visits and fetches in any order, one visit for each CID, an error ends it.
- Importing tar files and escaping their paths: calls into libraries, and easy next to the export.
- The IPNS record cache, DNS and DHT lookups, record signing and routing.
- Pinning itself, block storage, networking, cryptography and protobuf: libraries of which only the interface used here appears.
- The linker package, bootstrap lists, filters, the daemon, HTTP, fuse, plugins, configuration and all command-line handling: plumbing, or claims that the code alone does not decide.
