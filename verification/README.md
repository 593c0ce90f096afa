# Trusted-execution client stack: a verified model

This project models the parts of a vendor TrustZone user-space stack that keep
state, and proves what that state is for.

* **Storage proxy** (`KernelModel.dfy`, `Ipc.dfy`, `FileService.dfy`, `Storage.dfy`, `Rpmb.dfy`,
  `ProxyLoop.dfy`, `FileHistory.dfy`).
  The daemon that serves files to the secure world and remembers, in one state per
  descriptor, one for the directories and one for whole file systems, what it has not synced
  yet. Proved over every sequence of messages and every pattern of system-call failures: the
  flags account for everything a crash could lose; a request that asks for a commit first and
  reaches its handler finds on disk what clients saw before it; written data, and committed files
  under their committed names, survive a crash at any later moment; every message is answered until one cannot be read or answered, and
  the responses are those of a plain file service that knows nothing of retries, flags or short
  transfers.
* **TEE client library** (`SharedRefs.dfy`, `TeeClient.dfy`, `TeeOperation.dfy`) and its users
  (`Gatekeeper.dfy`, `KeyMintConnection.dfy`). Proved for every effect of the secure side: shadow
  buffers are invisible to the client, nothing but outputs changes, every temporary block is
  released, and both users give back on every path exactly what they acquired.
* **KeyMint operation** (`KeyMintOperation.dfy`): the life of an operation handle.
* **Fragmenting protocols** (`KeymasterIpc.dfy`, `KeyInstall.dfy`): request fragmentation and response
  reassembly of the lite keymaster channel, and the chunked key installation.
* **Intrusive list** (`IntrusiveList.dfy`): the daemon's circular list as a sequence.

`Corners.dfy` has a concrete case for each promise that fails. `Octets.dfy` holds bytes, little-endian words and
the splice and clip of file contents, `Wrappers.dfy` the option type.

## Reading the model

The surroundings are nondeterministic. A system call, the secure world or the peer of a
channel decides freely, within its contract, whether it fails, how many bytes it moves and
what it answers; a theorem about a caller therefore holds for every such choice. The facts
assumed of the surroundings are the contracts in `KernelModel.dfy`, of `TeeClient.Driver`, of
`Rpmb.Device.MultiCmd` and of the channels:

* the kernel returns a descriptor that is not in use; `fsync` flushes the file, or for a root
  its directory; `syncfs` flushes everything under a root; a sync that fails may have flushed any
  files and directories, but each as a whole; the kernel may also write back on its own in
  front of every request;
* descriptors are opened with `O_SYNC` (`common/lite/storage/proxy/storage.c:308`), so a write that succeeds has put its
  bytes on disk as well, possibly with other changes of the file; one that fails may have moved some
  of its bytes to the page cache, and some of those to the disk; resizing, truncating opens,
  creates and deletes reach the page cache only;
* a write that succeeds moves at least one byte, and a read moves none only at the end of the file;
* handles in requests are never the proxy's own descriptors (roots, channel, block device);
* device descriptors are positive, a mapping yields a fresh block with a fresh id, and the id
  query succeeds;
* channels are message oriented: a write is all or nothing, one read returns one message, and a
  message that does not fit the buffers offered is a read error.

Structures that the C and C++ code hands around by pointer but never aliases
(`storage_msg`, `TEEC_SharedMemory`, `TEEC_Operation`) are values that go in and come back; process memory is a
map from blocks to bytes, so two parameters that name one buffer do alias. Long functions are
split into methods along their own steps.

## What the code does not do

Five promises fail in corners of the code. The model keeps the code, the contracts say exactly when the
promise holds, and `Corners.dfy` has a case in which it does not.

* A checkpoint while whole file systems are marked syncs only the roots that were set up
  (`common/lite/storage/proxy/storage.c:684-704`) but clears all marks. `Storage.Store.SyncCheckpoint` gives the disk
  contents of every file afterwards: what the flags named is flushed, everything else is as it was. The files left
  behind are those that were pending under other roots while such a mark was set. Since successful writes are
  synchronous, what a crash can undo there is a resize, a truncating open or a write that failed
  (`Corners.CommitWithoutRoot`).
* A close gives its table entry up before the sync that may fail (`common/lite/storage/proxy/storage.c:375-385`).
  `Storage.Store.SyncAndClose` states that the file is then adrift, unsynced with no flag to say so, if and only if
  that sync failed, the file still has unsynced changes, whole file systems were not marked and no other marked
  descriptor named the file; the same kinds of changes are concerned (`Corners.CloseWithoutSync`).
  `FileHistory.AdriftHasCause` shows that over any run there is no other cause than these two.
* `TEEC_ReleaseSharedMemory` does not recognise a zeroed structure, so a preparation that stops in front of a
  temporary parameter closes descriptor zero. `TeeOperation.InvokeOperation` states that this happens if and only if a
  temporary parameter lies behind the one at which preparation stopped, or the type word has more than four
  codes. It stops at the first parameter that is rejected for its code or direction, or before that at a temporary
  one for which no memory could be mapped; a call that reached the driver has not stopped at all
  (`Corners.StrayClose`, `Corners.NoStrayClose`).
* An operation ends with two requests instead of one if and only if the secure side answers its
  Finish with the transport's private code −10000 (`KeyMintOperation.Operation.Live`, `Corners.TwoEndings`).
* A key installation closes its connection if and only if the descriptor is not zero
  (`common/lite/kmsetkey/kmsetkey_ipc.c:45`, `common/lite/kmsetkey/kmsetkey_ipc.c:92`); over descriptor zero nothing is
  sent (`KeyInstall.Hal.Install`, `Corners.LeakedConnection`).

## Model

| member | source | states |
|---|---|---|
| `Octets.SpliceTwice` | common/lite/storage/proxy/storage.c:143-150 | two adjacent partial writes are one write of the concatenation, for any file, offset and data |
| `Octets.SpliceOn` | common/lite/storage/proxy/storage.c:143-150 | the same for the next part of one buffer |
| `Octets.ReadBack` | common/lite/storage/proxy/storage.c:138-172 | reading back the range of a write yields the data, whatever the file held |
| `Octets.ClipOn` | common/lite/storage/proxy/storage.c:160-170 | a read continued where a short one stopped is the whole read |
| `Octets.LittleEndian` | common/lite/storage/proxy/storage.c:416-417 | least significant byte first in 32-bit and 64-bit fields |
| `FileHistory.Bystander` | common/lite/storage/proxy/storage.c:174-532 | a request that does not close, write, resize or truncate a file leaves its handle and contents alone, whatever its outcome |
| `FileHistory.Bystanders` | common/lite/storage/proxy/proxy.c:105-206 | so does any stretch of a run made of such messages, served or turned away |
| `FileHistory.WriteEffect` | common/lite/storage/proxy/storage.c:403-431 | a write answered with success spliced its payload into the file behind the handle |
| `FileHistory.ReadAnswer` | common/lite/storage/proxy/storage.c:433-470 | a read answered with success carries exactly what the file holds in that range, up to its end |
| `FileHistory.ReadYourWrites` | common/lite/storage/proxy/storage.c:403-470 | over any run of the proxy, a written range read back through the same handle yields the written data when nothing in between concerns that file |
| `FileHistory.WriteHolds` | common/lite/storage/proxy/storage.c:403-430 | what was written is what the file holds until something concerns it again |
| `FileHistory.AdriftHasCause` | common/lite/storage/proxy/storage.c:363-394 | in every state of every run, an unsynced file no flag accounts for owes that to a failed close of it or to a commit that had to miss it, and has not been named by a flag since |
| `FileHistory.WrittenStaysCovered` | common/lite/storage/proxy/storage.c:403-430 | a written file is accounted for as long as no close of it fails, whatever else fails |
| `FileHistory.CommitDone` | common/lite/storage/proxy/proxy.c:120-128 | a commit answered with success has happened before its request was handled: directories and files not adrift were on disk as clients saw them, and still are unless the request writes to them |
| `FileHistory.CommitReaches` | common/lite/storage/proxy/proxy.c:120-128 | a commit answered with success puts the file on disk as clients saw it, for a request that does not itself concern the file |
| `FileHistory.StaysOnDisk` | common/lite/storage/proxy/proxy.c:105-206 | what is on disk stays there while nothing concerns the file |
| `FileHistory.CommittedWritesSurvive` | common/lite/storage/proxy/proxy.c:105-206 | a file written with success and followed by a successful commit is on disk, with all its changes of before, after every later exchange of the run, for any pattern of failures |
| `FileHistory.WriteThrough` | common/lite/storage/proxy/storage.c:308 | a write answered with success is on disk when it is answered |
| `FileHistory.RangeStays` | common/lite/storage/proxy/proxy.c:105-206 | a range that is on disk and in the file stays on disk while nothing concerns the file |
| `FileHistory.WrittenRangeSurvives` | common/lite/storage/proxy/storage.c:403-430 | written data is on disk after every later exchange even without a commit, for any pattern of failures, until something concerns the file |
| `FileHistory.NameBystander` | common/lite/storage/proxy/storage.c:174-532 | a request that neither deletes nor may create a name leaves what it stands for alone, whatever its outcome |
| `FileHistory.CommittedNamesSurvive` | common/lite/storage/proxy/storage.c:658-681 | what a name stands for, created or deleted, is on disk after every exchange from a successful commit on, until a request deletes or may create that name |
| `FileHistory.OpenEffect` | common/lite/storage/proxy/storage.c:256-361 | an open answered with success: the name stands for the file behind the new handle |
| `FileHistory.DeleteEffect` | common/lite/storage/proxy/storage.c:174-224 | a delete answered with success: the name stands for nothing |
| `FileHistory.OpenRefused` | common/lite/storage/proxy/storage.c:335-345 | an open of a missing file without the create flag is answered NOT_FOUND, an exclusive create of a present one EXIST, memory permitting, and success means exactly that the last open call succeeded |
| `FileHistory.FoundAfterCrash` | common/lite/storage/proxy/proxy.c:105-206 | after a crash at any later moment, the name of a committed file leads to it, with the written data in it |
| `FileService.TranslateErrno` | common/lite/storage/proxy/storage.c:106-136 | no failure is ever reported as success, and which error stands for which failures |
| `FileService.ResultOf` | common/lite/storage/proxy/storage.c:106-136 | the answer to a well-formed request: success exactly if the last system call made for it succeeded, else the class of what that call reported, or GENERIC when memory ran out |
| `Storage.Store.constructor` | common/lite/storage/proxy/storage.c:534-573 | after initialisation nothing is marked and the tracking invariant holds |
| `Storage.Store.InsertFd` | common/lite/storage/proxy/storage.c:64-84 | the exact new state of all three tiers of flags |
| `Storage.Store.LookupFd` | common/lite/storage/proxy/storage.c:86-96 | marks exactly the table entry, or the whole file system for handles beyond the table |
| `Storage.Store.RemoveFd` | common/lite/storage/proxy/storage.c:98-104 | forgets exactly the one entry |
| `Storage.Store.SyncEntry` | common/lite/storage/proxy/storage.c:643-655 | one table entry: it is cleared only if its file is now synced or a file-system sync is still due; it fails exactly if its sync call does, and no file comes adrift |
| `Storage.Store.SyncTable` | common/lite/storage/proxy/storage.c:643-655 | on success exactly the marked files are flushed, the others keep their disk contents; no mark, no system call; no file comes adrift, wherever it fails |
| `Storage.Store.SyncRoots` | common/lite/storage/proxy/storage.c:658-681 | on success exactly the directories of the roots set up become synced; a failure part way keeps the mark |
| `Storage.Store.SyncFileSystems` | common/lite/storage/proxy/storage.c:684-705 | on success exactly the roots set up are flushed whole, and what is passed over is exactly what is still unsynced; a failure part way keeps the mark |
| `Storage.Store.SyncAll` | common/lite/storage/proxy/storage.c:638-708 | the three parts in order: exact disk contents on success, and only files of roots never set up can come adrift; it fails if and only if the last sync call it issued failed, and all before that succeeded |
| `Storage.Store.SyncCheckpoint` | common/lite/storage/proxy/storage.c:638-708 | the selective checkpoint is as good as syncing everything: the exact disk contents of every file and directory on success, no mark left, and a file unsynced if and only if it is one of the exempt; both exempt sets given exactly, flushed files leave them; nothing marked, no sync issued; on failure no file comes adrift; it fails if and only if the last sync call it issued failed, and all before that succeeded |
| `Storage.PatchOn` | common/lite/storage/proxy/storage.c:143-150 | one loop turn of the write retry extends the patched range of the file |
| `Storage.Store.WriteMore` | common/lite/storage/proxy/storage.c:142-150 | one turn of the write retry: at least one byte more of the data is in place, in the page cache and on disk; a turn that fails may still have moved some |
| `Storage.ThroughMore` | common/lite/storage/proxy/storage.c:143-150 | two adjacent transfers that went through to the disk are one that did |
| `Storage.Store.WriteWithRetry` | common/lite/storage/proxy/storage.c:138-152 | under any short writes: all data spliced in and through to the disk on success, an initial part on failure, no other file touched; the loop ends |
| `Storage.Store.ReadWithRetry` | common/lite/storage/proxy/storage.c:154-172 | under any short reads: exactly the bytes up to the size asked for or the end of the file |
| `Storage.Store.WriteThenRead` | common/lite/storage/proxy/storage.c:138-172 | what was written is what is read back, across both loops |
| `Storage.Store.Strlen` | common/lite/storage/proxy/storage.c:187 | the scan never passes the terminator the proxy forced behind the message, whatever the buffer held before |
| `Storage.Store.FrameName` | common/lite/storage/proxy/storage.c:270-276 | a name is accepted if and only if its bytes hold no NUL, and is then exactly those bytes |
| `Storage.Store.ParseName` | common/lite/storage/proxy/storage.c:263-304 | the checks of open and delete: which request yields its name, and which error otherwise, whether or not memory runs out |
| `Storage.Store.MarkAndUnlink` | common/lite/storage/proxy/storage.c:202-215 | the directory is marked before it changes; only that entry goes |
| `Storage.Store.DeleteNamed` | common/lite/storage/proxy/storage.c:202-224 | a delete request with an accepted name: unlink decides the answer, NOT_FOUND for a name that stands for nothing |
| `Storage.Store.FileDelete` | common/lite/storage/proxy/storage.c:174-224 | a delete step of the file service, answered by what unlink reported; one response, and no file comes adrift |
| `FileService.OpenBits` | common/lite/storage/proxy/storage.c:278-300 | which bits of the first request byte mean create, exclusive and truncate, which choose the directory, and that the name follows the flags unchanged except for the proinfo file |
| `Storage.Store.OpenPath` | common/lite/storage/proxy/storage.c:308-333 | the last open call is the one the flags ask for; which opens create, truncate or fail, and that a created file needs the create flag |
| `Storage.Store.OpenAndInsert` | common/lite/storage/proxy/storage.c:313-351 | a new handle on the right file, with the invariant kept although the table entry is overwritten |
| `Storage.Store.OpenNamed` | common/lite/storage/proxy/storage.c:278-361 | an open request with an accepted name: the last open call is as the flags ask, and its outcome decides the answer |
| `Storage.Store.FileOpen` | common/lite/storage/proxy/storage.c:256-361 | an open step of the file service, answered by what the last open call reported, NOT_FOUND and EXIST exactly where they belong; one response, and no file comes adrift |
| `Storage.Store.SyncAndClose` | common/lite/storage/proxy/storage.c:375-394 | exact state of the record on all exits: the file comes adrift if and only if its sync failed, it is still unsynced, whole file systems were not marked and no other marked descriptor names it; no other file comes adrift |
| `Storage.Store.ForgetAndSync` | common/lite/storage/proxy/storage.c:375-385 | the same up to the sync |
| `Storage.Store.CloseHandle` | common/lite/storage/proxy/storage.c:375-399 | a close request of the right size: the answer is that of the call that failed, NOT_VALID for a handle that is not open, and success means synced and closed |
| `Storage.Store.FileClose` | common/lite/storage/proxy/storage.c:363-400 | a close step of the file service, answered by what the sync or the close reported, with the exact effect on the record; success means the file was synced |
| `Storage.Store.MarkAndWrite` | common/lite/storage/proxy/storage.c:416-424 | a write that stops half way is covered by a mark made before it; the exact marks, what reached the page cache and what the disk, and no file comes adrift |
| `Storage.Store.FileWrite` | common/lite/storage/proxy/storage.c:403-430 | a write step of the file service, answered by what the last write call reported; on success the payload has gone through to the disk; the file is covered and no other comes adrift |
| `Storage.Store.WriteRequest` | common/lite/storage/proxy/storage.c:416-427 | the same up to the response |
| `Storage.Store.FileRead` | common/lite/storage/proxy/storage.c:434-470 | a read step of the file service, answered by what the last read call reported; nothing changes |
| `Storage.Store.ReadRequest` | common/lite/storage/proxy/storage.c:453-466 | a read request of acceptable size up to its response |
| `Storage.Store.FileGetSize` | common/lite/storage/proxy/storage.c:473-503 | the size of the file behind the handle, or what the call reported; nothing changes |
| `Storage.Store.MarkAndResize` | common/lite/storage/proxy/storage.c:518-525 | a resize is covered by a mark made before it; the exact marks |
| `Storage.Store.FileSetSize` | common/lite/storage/proxy/storage.c:506-532 | a resize step of the file service, answered by what the call reported; one response, and no file comes adrift |
| `Storage.Store.InitOk` | common/lite/storage/proxy/storage.c:575-636 | one response, nothing else |
| `Rpmb.Split` | common/lite/storage/proxy/rpmb.c:101-165 | the command array is filled if and only if every size is acceptable, and then with exactly the commands of the request |
| `Rpmb.CommandsTile` | common/lite/storage/proxy/rpmb.c:101-165 | the write commands carry the payload exactly once and in order |
| `Rpmb.CommandsWholeBlocks` | common/lite/storage/proxy/rpmb.c:102-165 | every command moves whole blocks with the opcode of its direction; the read asks for exactly the size requested |
| `Rpmb.CommandsOrder` | common/lite/storage/proxy/rpmb.c:102-165 | one command per non-zero size, in the order reliable write, write, read |
| `Rpmb.Device.Send` | common/lite/storage/proxy/rpmb.c:75-190 | an acceptable request is one ioctl with its commands and is answered with exactly what the device answered, or GENERIC if the ioctl failed; any other is NOT_VALID and leaves the device alone |
| `Ipc.RespCmd` | common/lite/storage/proxy/ipc.c:107 | only the response bit is added |
| `Ipc.HeaderBytes` | common/lite/storage/proxy/ipc.c:71-98 | which bytes of a message are its command, operation, flags and size |
| `Ipc.Channel.GetMsg` | common/lite/storage/proxy/ipc.c:71-98 | accepts exactly the whole messages whose size field is right; the rest of the reused buffer is untouched |
| `Ipc.Channel.Respond` | common/lite/storage/proxy/ipc.c:100-117 | one more response attempt, with the header of the request, and whether it could be written |
| `ProxyLoop.Proxy.DispatchFile` | common/lite/storage/proxy/proxy.c:128-155 | every file command is a step of the file service; nothing reaches the disk but the page cache of before and the payload of a write, and only a failed close sets a file adrift |
| `ProxyLoop.Proxy.Dispatch` | common/lite/storage/proxy/proxy.c:128-182 | every command gets exactly one response, with its cause; the block device sees accepted RPMB requests only, and its answers are passed on; the same about the disk |
| `ProxyLoop.FlagBits` | common/lite/storage/proxy/proxy.c:105-126 | which bits of a message ask for a commit |
| `ProxyLoop.Proxy.Commit` | common/lite/storage/proxy/proxy.c:120-126 | the checkpoint in front of a request: on success the disk holds what clients see, files already adrift or missed aside; it fails exactly if a sync call does |
| `ProxyLoop.BarrierHolds` | common/lite/storage/proxy/proxy.c:120-128 | after a request behind a commit the disk still holds what clients saw before it, for every file it does not write to and for every directory |
| `ProxyLoop.Proxy.HandleReq` | common/lite/storage/proxy/proxy.c:105-183 | a request is turned away without effect on files, or served once; if it asked for a commit and is served, the disk at handler entry holds what clients saw before it; it is turned away only for an unsupported flag or because a sync call failed, and then no file has come adrift |
| `ProxyLoop.Proxy.Serve` | common/lite/storage/proxy/proxy.c:105-183 | the same with writeback by the kernel in front of the request |
| `ProxyLoop.Proxy.Turn` | common/lite/storage/proxy/proxy.c:191-203 | one message: exactly one response and one step if well formed, nothing at all otherwise; the result says whether the response could be written |
| `ProxyLoop.Proxy.Run` | common/lite/storage/proxy/proxy.c:185-206 | every run: a trace of steps from the first state to the last, with the files, the disk, the responses, the device commands and their answers in each; every message is answered until one is unreadable or a response cannot be written |
| `ProxyLoop.AnsweredInOrder` | common/lite/storage/proxy/proxy.c:185-206 | over any run the responses are one per message and in order, each with the identity of its message |
| `SharedRefs.StageElsewhere` | common/400/optee_client/libteec/src/tee_client_api.cpp:228-229 | staging writes to shared blocks only |
| `SharedRefs.StageMirrors` | common/400/optee_client/libteec/src/tee_client_api.cpp:228-272 | after staging, with any mix of parameters, every input range reads the same on both sides |
| `SharedRefs.DeliveryIsFound` | common/400/optee_client/libteec/src/tee_client_api.cpp:280-333 | delivery byte by byte: the last reference to deliver a byte decides it |
| `SharedRefs.OnlyOutputsChange` | common/400/optee_client/libteec/src/tee_client_api.cpp:280-333 | a byte that changed lies in the returned prefix of an output reference whose size fits, and is the shared byte |
| `SharedRefs.SoleReference` | common/400/optee_client/libteec/src/tee_client_api.cpp:299-332 | for a buffer named once, exactly the returned prefix is delivered |
| `SharedRefs.DeliverSole` | common/400/optee_client/libteec/src/tee_client_api.cpp:299-332 | the same for the whole block, including the case that the returned size does not fit |
| `SharedRefs.DeliverNothing` | common/400/optee_client/libteec/src/tee_client_api.cpp:280-333 | memory that is shared directly is not copied |
| `SharedRefs.ShadowIsInPlace` | common/400/optee_client/libteec/src/tee_client_api.cpp:205-333 | for an in-out reference to an unshared buffer, staging, any secure-side effect and delivery equal that effect in place, seen through the returned size |
| `TeeClient.Common.InitializeContext` | common/400/optee_client/libteec/src/tee_client_api.cpp:163-183 | one descriptor opened and one context in the table, or neither, over up to ten devices |
| `TeeClient.Common.FinalizeContext` | common/400/optee_client/libteec/src/tee_client_api.cpp:185-203 | closes the device of a context in the table once; a second call does nothing |
| `TeeClient.Common.OpenSession` | common/400/optee_client/libteec/src/tee_client_api.cpp:528-616 | a session in the table if and only if the secure side opened one, and the code for how the attempt ended |
| `TeeClient.Common.CloseSession` | common/400/optee_client/libteec/src/tee_client_api.cpp:618-626 | closes the session through a descriptor that is open, once |
| `TeeClient.Common.AllocateSharedMemory` | common/400/optee_client/libteec/src/tee_client_api.cpp:776-805 | one fresh mapped block and live id on success, no change on failure, and when each error occurs |
| `TeeClient.Common.RegisterSharedMemory` | common/400/optee_client/libteec/src/tee_client_api.cpp:713-745 | the same for a shadow block, the client's buffer kept |
| `TeeClient.Common.ReleaseSharedMemory` | common/400/optee_client/libteec/src/tee_client_api.cpp:807-838 | live memory is unmapped with the length it was mapped with and its id released; what happens to a released or merely zeroed structure |
| `TeeOperation.Settled` | common/400/optee_client/libteec/src/tee_client_api.cpp:497-516 | when no temporary slot is held, the driver's books are those of the start |
| `TeeOperation.Entered` | common/400/optee_client/libteec/src/tee_client_api.cpp:487-489 | a temporary block is entered on the books once |
| `TeeOperation.Left` | common/400/optee_client/libteec/src/tee_client_api.cpp:505-511 | and struck off once, leaving the others |
| `TeeOperation.ReleaseTmp` | common/400/optee_client/libteec/src/tee_client_api.cpp:505-511 | releasing one slot keeps the books balanced |
| `TeeOperation.FreeTempRefs` | common/400/optee_client/libteec/src/tee_client_api.cpp:497-516 | all temporary blocks are released and the books settled; descriptor zero is closed if and only if a slot was never reached |
| `TeeOperation.Directions` | common/400/optee_client/libteec/src/tee_client_api.cpp:205-278 | which kinds of parameter the secure side may read and write, whose buffer each names and how much of it |
| `TeeOperation.PreProcessWhole` | common/400/optee_client/libteec/src/tee_client_api.cpp:205-234 | rejects exactly blocks without a direction; the whole block is staged and announced by id, range and direction |
| `TeeOperation.PreProcessPartial` | common/400/optee_client/libteec/src/tee_client_api.cpp:236-278 | rejects exactly directions the block does not allow; the range is staged and announced by id, range and direction |
| `TeeOperation.Nibbles` | common/400/optee_client/libteec/src/tee_client_api.cpp:408-416 | the four kinds are the four-bit digits of the parameter types and determine them |
| `TeeOperation.PreProcessTmp` | common/400/optee_client/libteec/src/tee_client_api.cpp:461-495 | a temporary block is allocated once, filled and announced by its id, or nothing is held |
| `TeeOperation.PreProcessOne` | common/400/optee_client/libteec/src/tee_client_api.cpp:412-456 | one parameter more is staged and announced; it fails exactly for a rejected parameter or for want of memory, and then memory and books are as before |
| `TeeOperation.PrepareNext` | common/400/optee_client/libteec/src/tee_client_api.cpp:409-456 | the same in the loop: all announcements so far stay right, or the slots can be freed |
| `TeeOperation.PreparedIsSeparate` | common/400/optee_client/libteec/src/tee_client_api.cpp:392-459 | prepared references never mix client and shared blocks |
| `TeeOperation.PreProcessOperation` | common/400/optee_client/libteec/src/tee_client_api.cpp:392-459 | stops exactly at the first parameter that is rejected, or before it at a temporary one without memory; the memory is the staging of those before, the books hold their temporary blocks, and every slot can be freed |
| `TeeOperation.PostProcessOne` | common/400/optee_client/libteec/src/tee_client_api.cpp:280-375 | one parameter is delivered: an output reference takes the returned size over, an output value the returned words cut to 32 bits, and nothing else of the parameter changes |
| `TeeOperation.PostProcessOperation` | common/400/optee_client/libteec/src/tee_client_api.cpp:335-377 | all four are, in order |
| `TeeOperation.ClientSeesOutputsOnly` | common/400/optee_client/libteec/src/tee_client_api.cpp:628-689 | over a whole call, a changed byte of client memory was delivered by an output reference and is the secure side's |
| `TeeOperation.ClientSpared` | common/400/optee_client/libteec/src/tee_client_api.cpp:665-677 | a call that does not come back leaves client memory alone |
| `TeeOperation.CallDelivers` | common/400/optee_client/libteec/src/tee_client_api.cpp:628-689 | over a whole call, a buffer one output reference names gets exactly the returned prefix |
| `TeeOperation.CallIsInPlace` | common/400/optee_client/libteec/src/tee_client_api.cpp:628-689 | over a whole call with any mix of parameters, temporary ones included, a buffer one in-out reference names ends up as if the secure side had worked on it in place |
| `TeeOperation.PreparedRefers` | common/400/optee_client/libteec/src/tee_client_api.cpp:392-459 | the references are those of the parameters, each temporary one with a new block of its own |
| `TeeOperation.CallPrepared` | common/400/optee_client/libteec/src/tee_client_api.cpp:665-681 | one visit to the secure world, which was told of those references, found the staged memory and left what is delivered |
| `TeeOperation.InvokeOperation` | common/400/optee_client/libteec/src/tee_client_api.cpp:659-688 | for any secure-side effect, any mix of parameters and any failing step: the references are those of the parameters, client memory is explained by staging, the recorded visit and delivery; the books are those of the start; where preparation stops, and the exact condition for the stray close |
| `TeeOperation.InvokeCommand` | common/400/optee_client/libteec/src/tee_client_api.cpp:628-689 | the same for every session and operation, present or not, on the device and session of the caller; the result is that of the visit, and outputs are taken over as the references allow; tables and invariant kept |
| `Gatekeeper.CarriedOnlyBuff` | common/400/gatekeeper/ut_gatekeeper.cpp:98-102 | a call with the whole buffer changes no other client memory |
| `Gatekeeper.TransferShape` | common/400/gatekeeper/ut_gatekeeper.cpp:96-102 | preparation of the transfer cannot stop, and the secure side is told of the whole buffer by id and in both directions |
| `Gatekeeper.BuffWorkedOn` | common/400/gatekeeper/ut_gatekeeper.cpp:89-102 | the secure side finds the request in the announced block, and what it leaves there is the buffer afterwards, up to the size it returns |
| `Gatekeeper.ShareAndInvoke` | common/400/gatekeeper/ut_gatekeeper.cpp:89-109 | the buffer is registered, used and released, or not registered at all; its contents afterwards are those the secure side left |
| `Gatekeeper.InvokeAndRelease` | common/400/gatekeeper/ut_gatekeeper.cpp:96-107 | one visit with the registered buffer, after which its block and id are gone |
| `Gatekeeper.Ladder` | common/400/gatekeeper/ut_gatekeeper.cpp:80-112 | from the open context on every path ends with it gone and its device closed once |
| `Gatekeeper.TransferBuff` | common/400/gatekeeper/ut_gatekeeper.cpp:56-122 | on every path tables, descriptors, sessions and shared memory equal those of the start, no call hit a closed descriptor, and a device that was opened is closed exactly once, although one path finalizes twice; unless the driver refused something there is one visit, whose result decides and which worked on the buffer as if in place |
| `KeyMintConnection.CallTa` | common/400/keymint1.0/common/beanpod_keymaster_ipc.cpp:115-154 | exactly one visit on the session's device with the command, told of both blocks by id and size with their contents as they were; the result is the visit's code read as a signed word, else the application's; on success the size of the response; the books survive |
| `KeyMintConnection.CallShape` | common/400/keymint1.0/common/beanpod_keymaster_ipc.cpp:115-142 | preparation of a call cannot stop, and the secure side sees memory unchanged |
| `KeyMintConnection.TakenByCall` | common/400/keymint1.0/common/beanpod_keymaster_ipc.cpp:139-151 | the application's value and the size of its response are found in the parameters after the call |
| `KeyMintConnection.BrokenIsNegative` | common/400/keymint1.0/common/beanpod_keymaster_ipc.cpp:139-148 | the result is negative exactly for a lost visit or a negative code, and zero exactly if both codes are |
| `KeyMintConnection.Connection.FillInput` | common/400/keymint1.0/common/beanpod_keymaster_ipc.cpp:126-136 | the request is in place and the output block cleared; rewriting the size does not disturb the mapped length |
| `KeyMintConnection.Connection.Connect` | common/400/keymint1.0/common/beanpod_keymaster_ipc.cpp:46-101 | all four resources, or none, wherever it fails, and it fails only if the driver refused something |
| `KeyMintConnection.Connection.Allocate` | common/400/keymint1.0/common/beanpod_keymaster_ipc.cpp:78-97 | one block on the books and new there, or nothing changed because the driver refused it |
| `KeyMintConnection.Connection.Disconnect` | common/400/keymint1.0/common/beanpod_keymaster_ipc.cpp:199-210 | none of the four remains, session and device are closed once each, and no fault occurs |
| `KeyMintConnection.Connection.Call` | common/400/keymint1.0/common/beanpod_keymaster_ipc.cpp:103-154 | size and connection checks; otherwise exactly one visit that carries the request, with its result, and on success the reply is what the application left in the output block, up to the size it returned |
| `KeyMintConnection.Connection.Send` | common/400/keymint1.0/common/beanpod_keymaster_ipc.cpp:243-283 | a request that fits an open connection is carried exactly once; a lost visit or a negative code closes the old session and device and leaves all four or none, never two sets; any other leaves the connection alone; too large a request does nothing |
| `KeyMintConnection.Connection.Reset` | common/400/keymint1.0/common/beanpod_keymaster_ipc.cpp:263-266 | the old session and device are closed once each, and all four or none are held afterwards |
| `KeyMintConnection.Run` | common/400/keymint1.0/common/beanpod_keymaster_ipc.cpp:46-312 | over any run with failures anywhere every step is taken, with its result, reply and effect on handle, visits and closes; the handle is positive exactly when all four are held and −1 exactly when none is |
| `KeyMintConnection.VisitsAreSends` | common/400/keymint1.0/common/beanpod_keymaster_ipc.cpp:243-283 | over any run the secure world sees exactly the requests that fit and found the connection open, once each and in order |
| `KeyMintOperation.Operation.Send` | common/400/keymint1.0/common/beanpod_keymaster_ipc.cpp:243-262 | a request that is too large is never handed over |
| `KeyMintOperation.Operation.DoAbort` | common/400/keymint1.0/BeanpodKeyMintOperation.cpp:187-196 | one abort request, and the handle is given up |
| `KeyMintOperation.Operation.DoUpdateAad` | common/400/keymint1.0/BeanpodKeyMintOperation.cpp:69-87 | hands over an Update if it fits, followed by an Abort exactly when the outcome is the private code, which ends the operation; the error reported |
| `KeyMintOperation.Operation.DoUpdate` | common/400/keymint1.0/BeanpodKeyMintOperation.cpp:89-133 | the same, with the early exit and the consumption check |
| `KeyMintOperation.Operation.DoFinish` | common/400/keymint1.0/BeanpodKeyMintOperation.cpp:135-185 | hands over a Finish if it fits, followed by an Abort exactly when the outcome is the private code; gives the handle up unless there is no output parameter |
| `KeyMintOperation.Operation.Destroy` | common/400/keymint1.0/BeanpodKeyMintOperation.cpp:63-67 | aborts what is left, and nothing otherwise |
| `KeyMintOperation.Operation.MakeAll` | common/400/keymint1.0/BeanpodKeyMintOperation.cpp:69-196 | any sequence of calls hands over exactly the requests of their specification, in order |
| `KeyMintOperation.FinishInLife` | common/400/keymint1.0/BeanpodKeyMintOperation.cpp:135-185 | a life has a Finish if and only if the call that ends it is a Finish that fits |
| `KeyMintOperation.TwoEndingsAreLoud` | common/400/keymint1.0/BeanpodKeyMintOperation.cpp:172-178 | two endings imply a request with the handle after its end |
| `KeyMintOperation.Operation.Live` | common/400/keymint1.0/BeanpodKeyMintOperation.cpp:63-196 | any call sequence ending in destruction hands over, with the handle, exactly the requests its calls stand for: one Finish or Abort and nothing afterwards, if and only if no sent Finish was answered with the private code; a Finish if and only if the call that ends it is one that fits |
| `KeymasterIpc.DecodeFragments` | common/lite/km4.1/common/beanpod_keymaster_ipc.cpp:61-109 | a request's fragments decode to it from any decoder state, and leave the decoder ready |
| `KeymasterIpc.RoundTrip` | common/lite/km4.1/common/beanpod_keymaster_ipc.cpp:47-109 | the fragment stream of any list of requests decodes back to that list |
| `KeymasterIpc.FragmentShape` | common/lite/km4.1/common/beanpod_keymaster_ipc.cpp:65-97 | the number of fragments, their length limit, and STOP on all but the last |
| `KeymasterIpc.Connection.SendFragments` | common/lite/km4.1/common/beanpod_keymaster_ipc.cpp:55-109 | the loop writes exactly the fragments, or a proper initial part if a write fails |
| `KeymasterIpc.Stuck` | common/lite/km4.1/common/beanpod_keymaster_ipc.cpp:120-135 | a reply that cannot continue the response rules out every complete response |
| `KeymasterIpc.Extend` | common/lite/km4.1/common/beanpod_keymaster_ipc.cpp:136 | a proper reply extends the response by its payload |
| `KeymasterIpc.Connection.Check` | common/lite/km4.1/common/beanpod_keymaster_ipc.cpp:118-135 | a reply is taken if and only if it is whole, fits and answers the command: the command's own number with the response bit |
| `KeymasterIpc.Connection.Receive` | common/lite/km4.1/common/beanpod_keymaster_ipc.cpp:111-142 | succeeds if and only if the replies start with a complete response, whose payloads it concatenates within the caller's capacity |
| `KeymasterIpc.Connection.Call` | common/lite/km4.1/common/beanpod_keymaster_ipc.cpp:48-143 | success means the request was sent whole and the response was complete; failure means no connection, a proper initial part of the fragments, or no complete response |
| `KeymasterIpc.Connection.Send` | common/lite/km4.1/common/beanpod_keymaster_ipc.cpp:186-227 | over any run an open connection carries whole requests only, so the peer always decodes exactly those; the reset after an error is what keeps this; a failure is one of a too large request, no connection, or a request that came to nothing on the connection given up |
| `KeyInstall.ChunksTile` | common/lite/kmsetkey/HalAdaptationLayer.cpp:181-189 | for every key length the chunks are the key in order, each within the message size, DONE expected on the last only |
| `KeyInstall.ScriptFits` | common/lite/kmsetkey/HalAdaptationLayer.cpp:174-189 | every message fits the channel and the announced length is the length sent |
| `KeyInstall.ScriptOrder` | common/lite/kmsetkey/HalAdaptationLayer.cpp:167-193 | decrypt key, length, chunks and set-key in that order and nothing else; the chunks are the key |
| `KeyInstall.ExpectedBits` | common/lite/kmsetkey/kmsetkey_ipc.c:79-82 | the bits of the answer a call accepts |
| `KeyInstall.Hal.Call` | common/lite/kmsetkey/kmsetkey_ipc.c:43-88 | on a usable descriptor the message is tried once, and the call fails if and only if the exchange failed or its answer is not the expected one |
| `KeyInstall.Hal.SendChunks` | common/lite/kmsetkey/HalAdaptationLayer.cpp:181-189 | an initial part of the chunks, all of them and all acknowledged on success, nothing after a failure, which has a call that went wrong |
| `KeyInstall.Hal.Connect` | common/lite/kmsetkey/kmsetkey_ipc.c:32-41 | a connection is made and recorded, or a negative code |
| `KeyInstall.Hal.InstallOver` | common/lite/kmsetkey/HalAdaptationLayer.cpp:167-200 | over a connection: an initial part of the script, all of it on success; closed once if and only if its descriptor is not zero |
| `KeyInstall.Hal.Install` | common/lite/kmsetkey/HalAdaptationLayer.cpp:151-200 | whatever the peer answers, an initial part of the script; on success the whole script, every call acknowledged; at most one connection is made, and it is closed once if and only if its descriptor is not zero; a failure means no connection, descriptor zero or a call that went wrong |
| `IntrusiveList.InsertBetween` | common/400/teei_daemon/teei_list.h:48-55 | inserting after any node of any ring gives the ring with the entry there |
| `IntrusiveList.Add` | common/400/teei_daemon/teei_list.h:57-61 | prepends |
| `IntrusiveList.AddTail` | common/400/teei_daemon/teei_list.h:63-67 | appends |
| `IntrusiveList.Del` | common/400/teei_daemon/teei_list.h:69-81 | removes the entry at any position and poisons its links |
| `IntrusiveList.Pop` | common/400/teei_daemon/teei_list.h:91-97 | takes the first entry; from an empty list it takes and poisons the head |
| `IntrusiveList.PopTail` | common/400/teei_daemon/teei_list.h:83-89 | takes the last entry; from an empty list it takes and poisons the head |
| `IntrusiveList.Empty` | common/400/teei_daemon/teei_list.h:99-105 | true exactly for a list without entries |
| `IntrusiveList.ForEach` | common/400/teei_daemon/teei_list.h:31-32 | visits the entries in order and ends |
| `IntrusiveList.PopAll` | common/400/teei_daemon/teei_list.h:91-105 | popping until empty yields the entries in order |
| `IntrusiveList.Fifo` | common/400/teei_daemon/teei_list.h:63-97 | what is appended comes out after what was queued before, in order, for any number of entries |
| `Corners.CommitWithoutRoot` | common/lite/storage/proxy/storage.c:684-705 | a successful checkpoint that loses a resize under a root that was never set up; a failed one keeps the mark |
| `Corners.CloseWithoutSync` | common/lite/storage/proxy/storage.c:375-385 | a checkpoint that cannot fail and loses a resize after a close whose sync failed |
| `Corners.StrayClose` | common/400/optee_client/libteec/src/tee_client_api.cpp:505-511 | a rejected operation that closes descriptor zero |
| `Corners.NoStrayClose` | common/400/optee_client/libteec/src/tee_client_api.cpp:505-511 | the same without a temporary parameter behind the one that fails: descriptor zero stays |
| `Corners.TwoEndings` | common/400/keymint1.0/BeanpodKeyMintOperation.cpp:172-178 | a Finish answered with the private code: two endings |
| `Corners.LeakedConnection` | common/lite/kmsetkey/kmsetkey_ipc.c:90-96 | a connection with descriptor zero is never closed |

## Left out

- Storage.Store.FileOpen: names are entries of their root; the nested directories the VFS flag makes are not modelled, because no flag covers them.
- Storage.Store.constructor: covers instances with a data root; without one the checkpoint would sync an invalid descriptor.
- Storage.Store.InitOk: does not model the system properties it sets.
- TeeClient.Common.FinalizeContext: requires that the sessions of the context are closed, as sections 4.5.3 and 4.5.8 of the GlobalPlatform TEE Client API Specification v1.0 expect; its loop over open sessions advances past an erased element.
- TeeClient.Common.OpenSession: without an operation and with public login, the only way its callers use it; argument checks for null pointers are expressed by types.
- KeyMintConnection.Connection.Call: a response size beyond the output block yields no reply here, where the code would copy past the block. The variant without a request differs in its parameters only.
- KeyMintConnection.Connection.Send: stops at the response's bytes; deserialising them and mapping codes to keymaster errors are not modelled.
- KeyMintOperation.Operation.DoUpdate: the contents of requests (tokens, byte swaps) are reduced to their serialised size.
- IntrusiveList.Del: promises a ring for entries only; taking the head out of a list is what popping an empty one does, and leaves none.
- KeymasterIpc.Connection.Call: the error codes of failed writes and reads are reduced to their sign.
- The channel's reconnect loop: a run starts with a connected channel.
- The secure side of every protocol: its code is not in the repository.
- Conversion layers, message serialisation, `ForwardCommand` wrappers, UUID and manifest tables, option parsing, privilege dropping, logging, threads and cryptography: they would add easy members or rest on libraries that are not part of this model.
