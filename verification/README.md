# A verified model of the file storage server

The repository is a file storage server that keeps a bounded set of files in memory. Many clients connect over
local sockets, open files, lock them, and read, write, append to or remove them. A client that asks for a lock
somebody else holds gets no answer until the lock comes to it or the file goes away. When memory runs out, files
are replaced in FIFO, LRU or LFU order. One thread waits for requests on all connections and hands clients to a
pool of workers.

The project models these parts and proves what holds of them in every run.

- `Chains`, `LinkedLists`, `HashTables`: the linked list and the chained hash table as heap objects, proved to be
  a sequence with a tail pointer and a map.
- `Files`, `Policies`, `Stores`, `Handlers`: a stored file, the replacement orders, the bounded store with its
  counters in machine arithmetic, and every request handler, as functions on values.
- `FileStoredObject`, `FileSystemObject`, `RequestHandling`: the same code in the form it has in the server. The
  store holds a hash table of file objects and a linked list of names, every file two linked lists of clients, and
  no two of these share a heap object; each method is proved to do what its function says, through the contracts
  of table and list.
- `StoreInvariants`, `Routing`, `Protocol`: the server and its clients as a state machine. One step is the section
  of a handler under the file system lock; answers are delivered by steps of their own, in any order.
- `Answers`, `Effects`: what each request brings about, said of the store before and after: when it succeeds, with
  which error it fails, what becomes of every field of a file, which files come and go, who is told what.
- `LockRuns`, `Handover`, `LockAnswers`, `ExclusiveRuns`, `WriteRuns`, `PeakRuns`, `CreationOrder`, `StaleTails`,
  `Sessions`: what holds of whole runs, and what a client sees over several requests.
- `Promises`, `WritePromise`, `ClientPromises`: promises of the headers that the code does not keep as written, and
  exactly when they are kept.
- `Dispatch`, `Itinerary`: the select loop, the queue of pending clients, the workers and the pipe, with every
  interleaving, and the way of one client through them.
- `Wire`, `Connections`, `Conversations`: the request and reply format, the reading and writing loops over a
  connection that moves any number of bytes at a time, and the two ends put together. `AppendAnswers` is about the
  one call that cannot read every answer it may get, `LoneClient` about how its examples are put together.

Every run theorem is about a configuration: limits below 2^31, a policy, and two switches, `moveTail` and
`recordTotal`, for two corrections discussed next. The server as it is has both off; the theorems hold for every
setting unless they say otherwise.

## Where the code does not do what it says

The model follows the code. Each departure comes with a condition that holds if and only if the code does what it
says, and where the condition alone does not give one, with an input on which it does not.

- Unlinking a node does not move the tail of a list (shared_lib/src/linked_list.c:195-198), so taking out the last
  of several nodes leaves the tail on a freed node. A later append to that list, or freeing the file, is outside
  what C defines; the model has the outcome `Undefined` there. `StaleTails.UndefinedExactly` says which requests
  are undefined, `StaleTails.StaleTailsComeFromUnlinking` which steps lay the trap, `StaleTails.RunIsDefined` that
  nothing else can go wrong and that moving the tail repairs it, and `StaleTails.FirstOpenerCloses` gives five
  ordinary requests that run into it.
- Removing the last node leaves the next pointer of the new tail on the removed node
  (shared_lib/src/linked_list.c:138-146). `LinkedLists.LinkedList.RemoveLast` states it. Adding at either end and
  emptying are proved not to need that pointer; `LinkedLists.LinkedList.RemoveFirst` leaves a list exactly unless
  it takes the only node and that pointer was left behind.
- An append records the length of what was appended instead of the total (server/src/file_stored.c:63).
  `Files.AppendMeetsItsNameExactlyOnEmptyFiles` and `WriteRuns.MemoryIsExactExactlyWithoutSuchAppends` say exactly
  when that does no harm.
- The comparators cut differences down to int (server/src/replacement_policy.c:66-114).
  `Policies.CompareIsLexicographicExactly` says for any two files when the sign is right, and
  `Policies.TellsApartWithinInt` that short of a difference of 2^32 this is when the first difference fits in an
  int. `Policies.PolicyIsFollowedExactly` says for any stored files when every array that sorting may leave is in
  policy order. `Policies.CompareFailsAcrossTheSignBit` gives two files that compare the wrong way round,
  `Policies.CompareCycles` three on which the comparator is no preorder at all. On files they do not order,
  sorting may leave any permutation.
- Reading a string reads its announced length, not the length that fits (shared_lib/src/utils.c:214).
  `Wire.RequestRoundTrip` gives the exact domain, 1 to 108 characters.
- A write or append with an empty path is answered with an error before its flag, length and data are read
  (server/src/handle_client.c:13-22, 233-245), which stay on the connection as if a request began there; the same
  lemma says which bytes.
- The number of bytes read comes back as an int in which 0 and -1 mean failure (shared_lib/src/utils.c:175,
  server/src/handle_client.c:27-38), so data of certain lengths from 2^32 - 1 upwards reads as a failure; the
  same lemma says which.
- Closing a file succeeds for a client that never opened it (server/src/handle_client.c:709-717), although
  server/includes/handle_client.h:86 says that it fails. `Promises.StrangerCloses` gives the input, and
  `Promises.CloseFailsAsPromisedExactly` says that closing fails as promised if and only if the file is missing or
  the sender is one of its openers.
- A write is accepted while the file is still open for its first write, whatever its owner asked for in between
  (server/src/handle_client.c:261-276), although server/includes/handle_client.h:20 says that the sender's previous
  request on the file must have been the open that created and locked it. `WritePromise.WriteAfterRead` is a run
  with an accepted write right after a read. `Promises.WriteIsAcceptedExactly` says for one request, and
  `WritePromise.WriteIsAcceptedInRun` for every run, when a write is accepted;
  `WritePromise.WriteMeetsThePromiseExactly` says that the promise is kept except if, before the write, its
  sender has asked for something else on the file since it was created, and the file, created with the lock and
  not filled since, belongs to the sender and has room: then, and only then, it is not.
- After closeFile operations on the file should fail (client/includes/file_storage_api.h:83). One does not: closing
  it again. `ClientPromises.AfterCloseExactly` says that in every run, until the client opens the file again, its
  requests on it fail, without effect, except exactly for a further close while the file is there.
- A file opened with O_LOCK should be read by its owner alone (client/includes/file_storage_api.h:26-28), but a read
  of several files asks for no lock (server/src/handle_client.c:505-550), and files driven out are sent to whoever
  drove them out. `ClientPromises.LockedIsSeenExactly` says which requests of others still show the content of a
  locked file, and `ClientPromises.EverythingIsReadByAll` is the input: reading all files, with n not positive,
  shows every one of them to anybody.
- appendToFile does not reset its buffer for an empty file (client/src/file_storage_api.c:344-373, other than
  writeFile at 284-285), so an empty file sent back after a non-empty one is freed a second time, which C leaves
  undefined, inside the loop that reads the answer. `Wire.ReplyRoundTrip` says that an answer is read back except
  exactly in this case, `AppendAnswers.AppendIsMisreadExactly` says it of the files to be replaced, and
  `Conversations.AnswersInRunsAreUnderstood` of every answer in every run. `AppendAnswers.SecondFree` gives a run:
  a client fills the first and third of four files and appends to the last.
- After a client turns out disconnected the scan looks at the same descriptor again (server/src/server.c:446-463)
  until it has used up its count. `Dispatch.PassHandsOverTheReadyExactly` says that a complete pass hands over
  exactly the ready clients if and only if it finds none of them disconnected, and
  `Dispatch.PassEndsAtTheFirstDisconnected` that otherwise it hands over exactly those above the first such
  client. The others wait for the next pass; `Dispatch.RevisitHandsOverNobody` says that none is lost.

Where the code promises nothing: only the step from no pending client to one signals the workers
(server/src/server.c:476-477). `Dispatch.AWaitingClientFindsAWorker` proves that no wake-up is lost, and
`Dispatch.AllButOneCanSleepBesideWork` that for any number of workers from two upwards all but one of them can sleep
while two clients wait.

## Model

| member | source | states |
|---|---|---|
| Protocol.RunKeepsInv | server/src/handle_client.c:146-730 | in every state of every run: one finite map behind names list, keys and counter, the joint lock invariant of every live file, write-enabled files empty, memory within the limit, every pending request placed, every opener connected |
| Protocol.StepKeepsInv | server/src/handle_client.c:146-730 | the same invariant is inductive over connecting, sending, handling, delivering and disconnecting |
| Protocol.PendingRequestIsInExactlyOnePlace | server/src/handle_client.c:60-80 | a client with an unanswered request is in exactly one of dispatch, one slot of one lock queue, or one undelivered answer; an idle client is in none |
| Protocol.HandledRequestKeepsInv | server/src/handle_client.c:146-730 | handling any request keeps the whole invariant |
| Protocol.SectionKeepsPlaces | server/src/handle_client.c:625-645 | a section under the file system lock that leaves its sender waiting or answered, and answers whoever leaves a queue, keeps every pending request in one place |
| Protocol.DisconnectKeepsPlaces | server/src/file_system.c:280-296 | a disconnection removes the client from every place and moves the heirs of its locks from queue to mail |
| Protocol.NewOpenerIsTheSender | server/src/handle_client.c:146-730 | no request puts anybody but its sender on a list of openers |
| Protocol.DisconnectKeepsKnown | server/src/file_system.c:280-296 | after a disconnection only connected clients have files open |
| Protocol.SenderIsFree | client/src/file_storage_api.c:133-134 | since clients wait for an answer before they ask again, no sender of a request is in a lock queue |
| Routing.HandleRoutes | server/src/handle_client.c:146-730 | every request: who leaves a lock queue is told so exactly once, nobody else but the sender is told anything, the sender is told or waits in one queue |
| Routing.DisconnectRoutes | server/src/file_system.c:280-296 | a disconnection tells exactly the clients that leave a queue for a lock, each once, never the one that left, and leaves no trace of it |
| Routing.GrantRoutes | server/src/handle_client.c:680-690 | giving up a lock answers the head of the queue and the sender and touches nobody else |
| Routing.TakeLockRoutes | server/src/handle_client.c:625-645 | asking for a lock is answered at once or puts the sender in that one queue without an answer; which of the two is said by Answers.LockIsGrantedExactly |
| Routing.RemovalRoutes | server/src/handle_client.c:67-80 | when files go, exactly their waiters are told and are in no queue afterwards |
| Routing.EvictionNotesTell | server/src/handle_client.c:105-111 | the waiters of all victims, and only they, get one notice each |
| Routing.RemoveRoutes | server/src/handle_client.c:563-598 | removing a file answers its waiters and its owner and nobody else |
| Routing.ReleaseRoutes | server/src/handle_client.c:648-730 | unlock and close answer the next owner, if there is one, and the sender |
| Routing.PutContentRoutes | server/src/handle_client.c:278-333 | making room for a write or append answers the sender and the waiters of the victims |
| StoreInvariants.HandleKeepsInv | server/src/handle_client.c:146-730 | every request keeps the store invariant and changes the drift between counter and records by exactly the bytes an accepted append takes off the record |
| StoreInvariants.DisconnectKeepsInv | server/src/file_system.c:280-296 | a disconnection keeps the store invariant and the drift |
| StoreInvariants.OpenKeepsInv | server/src/handle_client.c:146-228 | creating, opening and locking keep the invariant and add no memory |
| StoreInvariants.CloseKeepsInv | server/src/handle_client.c:694-730 | closing keeps the invariant because the lock is handed on first and a free sender waits nowhere |
| StoreInvariants.PutContentKeepsInv | server/src/handle_client.c:305-309 | adding the new size without subtracting the old one keeps the books right up to the old size, which is 0 for a write |
| StoreInvariants.WriteKeepsInv | server/src/handle_client.c:230-333 | a write keeps the invariant with no drift, since a write-enabled file is empty |
| StoreInvariants.AppendKeepsInv | server/src/handle_client.c:335-440 | an append keeps the invariant and drifts by the size on record before it |
| Answers.LockIsGrantedExactly | server/src/handle_client.c:197-216 | a lock, or an open with the lock, of a stored file that is not turned down: if nobody else owns it the sender is told so and owns it; otherwise it is told nothing, stands last in the queue, and the owner stays |
| Answers.GrantedMeansOwned | server/src/handle_client.c:171-211 | a success told to who asks for a lock, at the creation too, means that it owns the file |
| Answers.OwnerHandsOn | server/src/handle_client.c:680-717 | an unlock or close by the owner makes the head of the queue the owner and tells it first, or leaves the file free; a close by anybody else leaves owner and queue and tells nobody else |
| Answers.AppendIsAcceptedExactly | server/src/handle_client.c:360-418 | an append succeeds if and only if the sender has the file open, nobody else owns it, and the data is empty or fits beside what the counter cannot get back; otherwise the sender is told of a failure |
| Answers.AppendFailsExactly | server/includes/handle_client.h:29 | for each of the four errors of an append, exactly when it is the answer, and nothing has happened then |
| Answers.WriteFailsExactly | server/src/handle_client.c:251-303 | for each of the four errors of a write, exactly when it is the answer, and nothing has happened then |
| Answers.OpenFailsExactly | server/src/handle_client.c:158-195 | an open fails exactly with EMLINK when creating in a full store, else EEXIST when creating a file that is there, and ENOENT when not creating one that is not |
| Answers.LockFailsExactly | server/src/handle_client.c:609-623 | a lock fails exactly with ENOENT without the file and EPERM for a client that has not opened it |
| Answers.UnlockFailsExactly | server/src/handle_client.c:657-678 | an unlock fails exactly with ENOENT without the file, EPERM for a client that has not opened it, and EACCES for an opener that is not the owner |
| Answers.ReadFailsExactly | server/src/handle_client.c:451-473 | a read fails exactly with ENOENT without the file, EPERM for a client that has not opened it, and EACCES while somebody else owns it |
| Answers.ReadTells | server/src/handle_client.c:475-484 | a read by an opener while nobody else owns the file is answered with as many bytes of the buffer as are on record |
| Answers.FlagBits | shared_lib/includes/server_api_utils.h:22-25 | the lowest bit of the flags asks to create, the next to lock, whatever the others are |
| Answers.RemoveFailsExactly | server/src/handle_client.c:572-586 | a removal fails exactly with ENOENT without the file and EACCES for a client that does not own it |
| Answers.RemoveTells | server/src/handle_client.c:588-596 | a removal by the owner tells every waiter that the file is gone, in the order of the queue, then the owner, and takes away that file only |
| Answers.JustEnoughIsReplaced | server/src/replacement_policy.c:15-49 | of what an accepted write or append has replaced, all is enough to make room and all but the last would not be, and the target is spared |
| Answers.WriteReplaces | server/src/handle_client.c:278-333 | after an accepted write exactly these files are gone, each waiter of theirs is told so, and their names and contents are sent back, in that order, if the sender wants them |
| Answers.AppendReplaces | server/src/handle_client.c:383-440 | after an accepted append likewise |
| Effects.RequestEffect | server/src/handle_client.c:146-730 | for every request and every stored file: it is timed and counted as used if and only if an accepted request other than an empty write names it; its content changes only when something is stored, to what was stored; of its openers only the sender comes, by an open, or goes, by a close |
| Effects.DisconnectEffect | server/src/file_system.c:280-296 | a disconnection takes the client off the openers of every file and leaves files, counters, contents, uses and the right to a first write as they were |
| Effects.FilesComeAndGoExactly | server/src/handle_client.c:146-730 | after every request exactly the files are there that were, plus the one it created, minus the one it removed or those it replaced |
| Effects.StepCreates | server/src/handle_client.c:171-187 | a new file is empty, nobody waits for it, and its creation is its first use |
| LockRuns.NoOvertaking | server/src/file_stored.c:137-193 | over any stretch in which a client waits for a file, only clients ahead of it from the start own the lock, nobody comes to stand before it, and its position plus the number of handovers never exceeds its first position |
| LockRuns.LaterRequesterWaits | server/src/file_stored.c:137-193 | a client behind a waiter, or not yet waiting, does not own the lock while that waiter still waits |
| LockRuns.StepDoesNotOvertake | server/src/handle_client.c:600-730 | a waiter leaves the queue only by owning the lock, disconnecting, or with the file; while it waits it never moves back and moves up whenever the lock changes hands |
| LockRuns.StepMoves | server/src/handle_client.c:146-730 | every step changes the lock of a file in one of six ways: not at all, taken when free, one more waiter, the actor gone from the queue, freed, or handed to the head of the queue |
| LockRuns.MoveKeepsThePlace | server/src/file_stored.c:137-193 | none of the six ways lets anybody overtake a waiter |
| LockRuns.DisconnectMoves | server/src/file_stored.c:160-182 | a disconnection changes a lock in one of the six ways |
| Handover.OwnerChangesExactly | server/src/handle_client.c:600-730 | in every step the owner of a file that stays changes if and only if it unlocks or closes the file or disconnects, or the file is free and somebody who may asks for the lock, and then that client owns it |
| Handover.GivenUpIsHandedOn | server/src/file_stored.c:160-193 | when the owner unlocks, closes or disconnects, the head of the queue owns the file and is told so and the others move up, or nobody owns it if nobody waited |
| Handover.HandoversAreCounted | server/src/file_stored.c:160-193 | in every run exactly these events are handovers, each counting for one |
| Handover.OthersAreToldWhatHappened | server/src/handle_client.c:60-80 | whoever else a request gives an answer to had waited: it is told success if it now owns the file, and EIDRM if the file is gone |
| LockAnswers.LockAnswersAreTrue | client/includes/file_storage_api.h:67-71 | in every run a client that is told success for a lock, or an open with the lock, owns the file then, unless it has been out of the store since the client asked; and one told EIDRM is told so because it has |
| LockAnswers.WaitersWaitForWhatTheyAsked | server/src/handle_client.c:197-211 | in every run a client waits only for the file whose lock its last request asked for |
| ExclusiveRuns.OwnedFileIsFrozen | server/src/handle_client.c:269-276 | over any stretch without a request or disconnection of its owner, a file that is not replaced keeps its owner and every byte |
| ExclusiveRuns.OwnerIsProtected | server/src/handle_client.c:374-592 | while another client owns the lock, a read, write, append, unlock or remove that names the file fails with no effect at all, and no other request changes the file or takes it away except by making room |
| ExclusiveRuns.StepProtects | server/src/handle_client.c:374-592 | only the owner's own request or disconnection, or a replacement for another file, ends the protection |
| ExclusiveRuns.OneAnswerPerRequest | client/src/file_storage_api.c:133-134 | over any stretch in which a client stays connected, answers delivered equal requests sent, up to the one pending at either end |
| WriteRuns.WriteOnce | server/src/handle_client.c:175-179 | between an accepted write or append and a later accepted write of the same path the file has been out of the store: one write per incarnation, none after an append |
| WriteRuns.StepShuts | server/src/handle_client.c:261-316 | a write needs the file open for it, a write or an append shuts it, and nothing opens it again |
| WriteRuns.HandleStaysClosed | server/src/handle_client.c:146-730 | no request makes an existing file write-enabled |
| WriteRuns.MemoryIsAccountedFor | server/src/file_system.c:254-278 | in every state of every run the counter is the sizes on record plus the bytes lost by appends so far, never above the peak, the peak never above the limit, and the file counter is the number of files and within its limit |
| WriteRuns.MemoryIsExactExactlyWithoutSuchAppends | server/src/file_stored.c:56-65 | the counter equals the sizes on record if and only if no append to a file with content was accepted; with the total recorded, always |
| WriteRuns.StepDrifts | server/src/file_system.c:254-278 | one step changes counter minus records by exactly its loss |
| Effects.UsesAreOnRecord | server/src/file_stored.c:195-201 | in every state of every run a stored file bears the time of its creation, the time of its last use and, in 32 bits, the number of its uses since |
| Effects.ReplacementFollowsHistory | server/src/replacement_policy.c:79-114 | in every run, when files that the comparator tells apart are driven out, then under LRU none is kept that was last used earlier, under LFU none used less often, under FIFO none created earlier, by the history of the run |
| PeakRuns.PeaksAreTheMaxima | server/src/file_system.c:236-277 | in every run the reported peaks are the largest amount of memory and the largest number of files there have been |
| PeakRuns.StepPeaks | server/src/file_system.c:236-277 | one step takes each peak to the larger of itself and the new counter |
| Promises.StrangerCloses | server/src/handle_client.c:709-717 | a client that has not opened the file closes it with success, and nothing but the use of the file changes |
| Promises.CloseFailsAsPromisedExactly | server/includes/handle_client.h:85-87 | in any store closing fails when it should if and only if the file is missing or the sender is one of its openers |
| Promises.WriteIsAcceptedExactly | server/src/handle_client.c:251-312 | a write succeeds if and only if the file is open for its first write, the sender owns it, and the data is empty or fits beside what the counter cannot get back; otherwise the sender is told of a failure |
| Promises.RoomIsMadeExactly | server/src/replacement_policy.c:6-49 | room is made if and only if size, drift and what the target already has stay within the limit, in whatever order the files are tried |
| Promises.UnnamedIsUnchanged | server/src/handle_client.c:146-730 | no request changes a file it does not name, other than by replacing it |
| Promises.FilesAreCreated | server/src/handle_client.c:163-187 | a file appears only by an open that creates it, with its sender as only opener, and open for its first write exactly if that open also locked it |
| WritePromise.WriteIsAcceptedInRun | server/src/handle_client.c:251-312 | in every run a write is accepted if and only if the file was created with the lock, nothing was stored in it since, the sender owns it now, and there is room |
| WritePromise.WritableExactly | server/src/handle_client.c:175-179 | in every run a file is open for its first write if and only if it was created with the lock and no write or append to it was accepted since |
| WritePromise.WriteMeetsThePromiseExactly | server/includes/handle_client.h:20 | in every run a write succeeds just when its sender's previous request on the file created and locked it and there is room, if and only if it is not so that, before the write, another request of its sender named the file since its creation and the file, created with the lock, still unfilled, belongs to the sender and has room |
| WritePromise.WriteAfterRead | server/src/handle_client.c:261-276 | a run, event by event, in which a client creates and locks a file, reads it and gets its empty content, and then writes it with success |
| ClientPromises.StrangerIsRefusedExactly | server/src/handle_client.c:251-730 | a request of a client on a file it has not opened, other than an open, fails if and only if it is not a close of a file that is there; if it fails nothing has changed, and the client is no opener afterwards |
| ClientPromises.AfterCloseExactly | client/includes/file_storage_api.h:83 | in every run, after a client has closed a file and until it opens it again, its requests on the file fail, without effect, if and only if they are not a further close while the file is there |
| ClientPromises.StepStaysClosed | server/src/handle_client.c:146-228 | in every state of the invariant no step but a client's own open makes it an opener of a file |
| ClientPromises.SeesExactly | server/src/handle_client.c:85-561 | for every request, the content of a file is among what the sender is sent if and only if it reads that file with the right to, or reads n files of which it is one, or its own accepted data drives the file out and it asks for what is driven out |
| ClientPromises.LockedIsSeenExactly | client/includes/file_storage_api.h:26-28 | a file that somebody else has locked is seen if and only if a read of several reaches it or a write or append elsewhere drives it out and asks for it |
| ClientPromises.EverythingIsReadByAll | server/src/handle_client.c:505-550 | a request for all files shows every file to anybody, locked or not |
| Sessions.ReadReturnsTheWrite | server/src/handle_client.c:230-495 | in every run, what an accepted write stored is what the client's next request, a read, returns, whatever the other clients did in between, as long as the file stays in the store |
| Sessions.FailureHasNoEffect | server/src/handle_client.c:42-58 | a request of any kind whose sender is told of a failure has left the store and counters as they were and told nobody else anything |
| Sessions.WriteIsReadBack | server/src/handle_client.c:230-333 | after an accepted write, the empty one included, the writer owns the file and reads back exactly its bytes |
| Sessions.AppendIsReadBackExactly | server/src/handle_client.c:335-440 | after an accepted append the old content followed by the new is read back if and only if one of the two was empty |
| Sessions.RecordedAppendIsReadBack | server/src/file_stored.c:56-65 | with the total recorded, always |
| Sessions.ReadableExactly | server/src/handle_client.c:442-495 | a client reads given bytes if and only if it has the file open, nobody else owns it, and they are its content on record |
| Sessions.RemoveUndoesCreate | server/src/handle_client.c:563-598 | removing a file just created and locked gives back the whole store but for the peak of the file count |
| Sessions.UnlockUndoesLock | server/src/handle_client.c:600-692 | unlocking after an uncontended lock gives back owner and queue; only the use count and time remain |
| CreationOrder.RunIsOrdered | server/src/file_system.c:221-245 | in every state of a run with a strictly increasing clock the names list is the stored files, newest first |
| CreationOrder.ReadNSendsTheNewest | server/src/handle_client.c:497-561 | reading n files sends min(n, count) different files, all for n not positive, in order of creation, every one newer than every file not sent, each with its own content |
| CreationOrder.FifoEvictsTheTail | server/src/replacement_policy.c:79-90 | under FIFO, if it tells the creation times apart, the victims are the shortest sufficient stretch at the end of the names list, target skipped, oldest first |
| CreationOrder.FifoOrderIsTheListReversed | server/src/replacement_policy.c:79-90 | the array sorted under FIFO is the names list backwards, and no other permutation is, whenever FIFO tells the creation times apart |
| CreationOrder.HandleKeepsOrder | server/src/handle_client.c:146-730 | every request handled at a later time keeps the list in order of creation |
| StaleTails.UndefinedExactly | shared_lib/src/linked_list.c:70-151 | a request is undefined if and only if it would append a waiter to a queue with a stale tail or free a file with a stale list |
| StaleTails.StaleTailsComeFromUnlinking | shared_lib/src/linked_list.c:174-202 | from a state without stale tails a step leaves one if and only if it closes by, or disconnects, the last of several on a list |
| StaleTails.RunIsDefined | shared_lib/src/linked_list.c:174-202 | if no step so far left a stale tail, and always once lists move their tails, whatever happens next is defined |
| StaleTails.FirstOpenerCloses | server/src/handle_client.c:694-730 | from any store with room, create, open, close, lock and remove by two clients end in an undefined step |
| StaleTails.CloseDetachesExactly | server/src/file_stored.c:114-135 | closing leaves a stale tail if and only if the sender is the last of several openers |
| StaleTails.DisconnectDetachesExactly | server/src/file_stored.c:114-182 | a disconnection leaves no stale tail if and only if the client is last of several on no list |
| Policies.SelectIsTheShortestSufficientPrefix | server/src/replacement_policy.c:15-49 | the victims are the shortest prefix, in policy order without the target, whose sizes reach what is missing, and enough is freed if and only if the other files hold enough |
| Policies.VictimsRankFirst | server/src/replacement_policy.c:6-62 | under each policy that tells the stored files apart no victim ranks after a file that is kept |
| Policies.CompareIsLexicographicExactly | server/src/replacement_policy.c:66-114 | for any two files and every policy the sign of the comparator is the lexicographic order by time or use count, then size, if and only if the low 32 bits of the first difference, or of the sizes when they are zero, read as that sign |
| Policies.TellsApartWithinInt | server/src/replacement_policy.c:66-77 | for first differences below 2^32 that is: if and only if the first difference fits in an int |
| Policies.PolicyIsFollowedExactly | server/src/replacement_policy.c:11-13 | for any stored files, every array that sorting may leave is in policy order if and only if the comparator tells all of them apart two by two |
| Policies.CompareIsTotalPreorder | server/src/replacement_policy.c:79-114 | on files told apart two by two, whatever their absolute times, counts and sizes, each comparator is reflexive, total and transitive |
| Policies.CompareFailsAcrossTheSignBit | server/src/replacement_policy.c:66-72 | a file created 2^31 seconds later compares as the earlier one |
| Policies.CompareCycles | server/src/replacement_policy.c:66-72 | three files, each created 0x60000000 seconds after the one before, compare in a cycle |
| Policies.PolicyOrderExists | server/src/replacement_policy.c:13 | for any stored files there is an array that sorting may leave, in policy order whenever the comparator is consistent |
| Policies.SelectHasNoDup | server/src/replacement_policy.c:18-40 | no file is chosen twice |
| Stores.MakeRoomConserves | server/src/replacement_policy.c:28-62 | room is refused if and only if the limit or the other files together are too small; otherwise the store is the old one without exactly the victims, count and memory drop by exactly theirs, the target survives, and files go only when memory is short |
| Stores.EvictRemovesExactly | server/src/replacement_policy.c:51-57 | removing the victims one by one removes them and nothing else, gives back exactly their sizes and keeps the peaks |
| Stores.RemoveFileKeepsAccounts | server/src/file_system.c:247-264 | removing a file keeps names, keys, counters and memory consistent and leaves the drift unchanged |
| Stores.AddFileKeepsAccounts | server/src/file_system.c:221-245 | adding a new empty file below the limit keeps them consistent, with its name first on the list |
| Stores.NotifyAddsExactly | server/src/file_system.c:266-278 | memory that fits under the limit is added exactly, in spite of the int parameter |
| Stores.RemovalDoesNotUnderflow | server/src/file_system.c:254-260 | in a consistent store neither size_t subtraction wraps |
| Stores.SizeMissingWraps | server/src/file_system.c:188-194 | for any operands the mixed int and size_t expression is used + size - max cut down to int |
| Stores.SizeMissingIsExactExactlyInRange | server/src/file_system.c:188-194 | so it is exact if and only if that number is an int |
| Stores.ArithmeticIsExact | server/src/file_system.c:188-213 | in every consistent store with limits below 2^31 the admission arithmetic is exact |
| Stores.CountIsTheNumberOfFiles | server/src/file_system.c:203-207 | the counter is the number of entries in the table |
| Files.ForgetKeepsLockInv | server/src/file_stored.c:114-182 | forgetting a client leaves no trace of it, loses no other opener or waiter, hands its lock to the first waiter left, and restores the lock invariant |
| Files.ReleaseKeepsLockInv | server/src/file_stored.c:184-193 | handing the lock on keeps the lock invariant, and the old owner is neither owner nor waiter |
| Files.EnqueueKeepsLockInv | server/src/file_stored.c:137-145 | an opener that neither owns nor waits may be enqueued behind an owner |
| Files.CloseKeepsLockInv | server/src/file_stored.c:114-135 | closing removes exactly the client and keeps the invariant once it has no claim on the lock |
| Files.AppendMeetsItsNameExactlyOnEmptyFiles | server/src/file_stored.c:56-65 | a non-empty append yields the old content followed by the new if and only if the file was empty; recording the total repairs it for all files |
| Chains.UnlinkDetachesExactlyTheLastOfSeveral | shared_lib/src/linked_list.c:174-202 | unlinking detaches the tail if and only if it takes the last of several nodes |
| LinkedLists.LinkedList.AddHead | shared_lib/src/linked_list.c:54-68 | the new value comes first, nothing else changes, and the tail is the last node if it was; also on a list whose last next pointer was left behind |
| LinkedLists.LinkedList.AddTail | shared_lib/src/linked_list.c:70-88 | on an attached list the new value comes last, even if the last node's next pointer was left behind by a removal |
| LinkedLists.LinkedList.RemoveFirst | shared_lib/src/linked_list.c:90-115 | the first value, if there is one, comes out and the rest stays in order; what is left is a list if and only if the last next pointer was not left behind or several nodes were there |
| LinkedLists.LinkedList.RemoveLast | shared_lib/src/linked_list.c:117-151 | the last value comes out and the tail is the new last node, whose next pointer is left on the removed one |
| LinkedLists.LinkedList.RemoveNode | shared_lib/src/linked_list.c:174-202 | exactly the given node comes out, and the tail is the last node afterwards unless the last of several was taken |
| LinkedLists.LinkedList.RemoveValue | shared_lib/src/linked_list.c:204-237 | exactly the first occurrence comes out, and the tail is the last node afterwards |
| LinkedLists.LinkedList.Empty | shared_lib/src/linked_list.c:266-277 | every value is handed to the free function exactly once, last to first, and the loop ends with an empty list |
| LinkedLists.LinkedList.UnlinkAt | shared_lib/src/linked_list.c:188-199 | relinking around a node removes it from the sequence and touches no other |
| HashTables.HashTable.Find | shared_lib/src/icl_hash.c:103-118 | for any hash function: finds the data of a key if and only if the map has it |
| HashTables.HashTable.Insert | shared_lib/src/icl_hash.c:130-156 | fails exactly on a key that is present, and then changes nothing; otherwise the map gains that key |
| HashTables.HashTable.Delete | shared_lib/src/icl_hash.c:221-248 | succeeds exactly on a key that is present and removes that key and no other |
| HashTables.HashTable.ChainsAreDisjoint | shared_lib/src/icl_hash.c:130-156 | no entry is reached from two buckets, or twice from one |
| HashTables.HashTable.Unlink | shared_lib/src/icl_hash.c:229-243 | relinking one chain keeps every chain ending, disjoint and in its bucket, and the entry count right |
| HashTables.AllHoldAfterInsert | shared_lib/src/icl_hash.c:147-153 | after an insertion at the front of its bucket every chain holds exactly the keys that hash to it |
| HashTables.AllHoldAfterDelete | shared_lib/src/icl_hash.c:229-243 | after a deletion every chain holds exactly the remaining keys that hash to it, one fewer in all |
| HashTables.HashPjw | shared_lib/src/icl_hash.c:38-52 | the hashing loop computes the fold over all bytes, signed, and always clears the top four bits |
| FileStoredObject.FileStored.ReplaceContent | server/src/file_stored.c:45-54 | the content is the new one, and the old size is returned, cut down to int |
| FileStoredObject.FileStored.AppendContent | server/src/file_stored.c:56-65 | the buffer is extended from the length on record, the length on record becomes that of the addition, the total is returned, cut down to int |
| FileStoredObject.FileStored.IsOpenedBy | server/src/file_stored.c:101-112 | the walk along the nodes finds a client if and only if it is on the list |
| FileStoredObject.FileStored.CloseClient | server/src/file_stored.c:114-135 | the first node of the client is unlinked from the heap list, if there is one, with the tail left where it was, and the other list keeps every node |
| FileStoredObject.FileStored.EnqueueLock | server/src/file_stored.c:137-145 | a new node behind the tail makes the client come last in the queue; the tail must not be stale |
| FileStoredObject.FileStored.DeleteLockClient | server/src/file_stored.c:160-182 | the client's node leaves the queue, its lock goes to the head of what is left, and the new owner is returned exactly if the lock moved |
| FileStoredObject.FileStored.DequeueLock | server/src/file_stored.c:184-193 | the head node of the queue comes out, or nobody |
| FileStoredObject.FileStored.Free | server/src/file_stored.c:73-89 | the openers, and the waiters unless the file is only replaced, are freed node by node, for which their tails must not be stale |
| FileSystemObject.FileSystem.RunReplacement | server/src/replacement_policy.c:6-63 | victims are the selection of the sorted array; success exactly if they free enough; then table, list and counters lose exactly them and the list of replaced files holds path, data, size and lock queue of each, out of reach of the store; otherwise nothing has changed |
| FileSystemObject.FileSystem.Simulate | server/src/replacement_policy.c:15-40 | the simulation loop collects exactly the selection and its total, changing nothing |
| FileSystemObject.FileSystem.RemoveAll | server/src/replacement_policy.c:51-57 | the removal loop takes exactly the victims out of table and list, and leaves every lock queue as it was |
| FileSystemObject.FileSystem.CountsAgree | server/src/file_system.c:24-36 | between requests the entry count of the table, the length of the list and the file counter are one number, the number of files |
| FileSystemObject.FileSystem.AddFile | server/src/file_system.c:221-245 | fails exactly on a taken name; otherwise the hash table, the head of the names list, counters and peaks all gain the file |
| FileSystemObject.FileSystem.Enlist | server/src/file_system.c:227-237 | insertion into the table decides, and only a new name goes to the head of the list, so that both name the same files, each once |
| FileSystemObject.FileSystem.Delist | server/src/file_system.c:255-256 | the name leaves the list, whose tail moves, and the table, and both name the same files again |
| FileSystemObject.FileSystem.RemoveFile | server/src/file_system.c:247-264 | hash table, names list and counters all lose the file and its client lists are freed, or nothing changes when there is none; no heap object of the file stays within reach of the store |
| FileSystemObject.FileSystem.GetFilesStored | server/src/file_system.c:153-171 | the walk along the names list with a lookup for each fills one slot per name, in list order, none of them empty |
| FileSystemObject.FileSystem.NotifyClientDisconnected | server/src/file_system.c:280-296 | one walk along the names list with a lookup for each makes every file forget the client, and exactly the heirs are told, in list order |
| FileSystemObject.FileSystem.OneFileChanged | server/src/file_system.c:215-219 | changing one file object and its lists in place changes the store at that name only, since no two files share a heap object |
| FileSystemObject.ForgetNotesSnoc | server/src/file_system.c:284-293 | one more file visited adds the notice of its heir, if there is one |
| RequestHandling.Serve | server/src/server.c:203-256 | any defined request, handled in place on an invariant store, leads to the store and the answers of the model, and the invariant holds again |
| RequestHandling.HandleOpen | server/src/handle_client.c:146-228 | open in place: full before existing before missing, then created or opened, and locked, queued or answered |
| RequestHandling.HandleWrite | server/src/handle_client.c:230-333 | write in place: the same checks in the same order, room made or refused, content replaced, waiters of the victims told |
| RequestHandling.HandleAppend | server/src/handle_client.c:335-440 | append in place, likewise |
| RequestHandling.HandleRead | server/src/handle_client.c:442-495 | read in place sends the content on record and counts the use |
| RequestHandling.HandleReadN | server/src/handle_client.c:497-561 | the countdown over the array sends the announced number of files, last of the chosen first |
| RequestHandling.HandleRemove | server/src/handle_client.c:563-598 | remove in place tells the waiters before it frees the file |
| RequestHandling.HandleLock | server/src/handle_client.c:600-646 | lock in place: answered, or queued without an answer |
| RequestHandling.HandleUnlock | server/src/handle_client.c:648-692 | unlock in place hands the lock to the head of the queue |
| RequestHandling.HandleClose | server/src/handle_client.c:694-730 | close in place hands the lock on first and does not ask whether the sender was an opener |
| RequestHandling.MakeRoom | server/src/handle_client.c:280-305 | the admission part changes nothing when it refuses and otherwise evicts and books exactly as the store model does |
| RequestHandling.OnFilesReplaced | server/src/handle_client.c:85-144 | the loop over replaced files tells every waiter and assembles the files to send back, in order of removal, and leaves all their queues empty |
| RequestHandling.FreeReplaced | server/src/handle_client.c:136-137 | every lock queue of a replaced file is emptied node by node through its own tail, which the admission made sure is not stale |
| RequestHandling.NotifyFileRemoved | server/src/handle_client.c:67-80 | the walk along the nodes of a lock queue sends every waiter one removal notice, in queue order |
| Dispatch.EveryClientIsInOnePlace | server/src/server.c:159-507 | in every interleaving a connected client is in exactly one of select set, handler, pending queue, one worker or pipe, any other descriptor in none, so no two workers serve the same client |
| Dispatch.AWaitingClientFindsAWorker | server/src/server.c:171-183 | in every interleaving, while a client is pending some worker can take it or finish what it holds |
| Dispatch.StepKeepsInv | server/src/server.c:159-507 | the one-place invariant is inductive over every critical section and system call |
| Dispatch.StepKeepsSomebodyUp | server/src/server.c:471-477 | signalling only when the queue length becomes 1 keeps some worker awake while anybody is pending |
| Dispatch.RunKeepsInv | server/src/server.c:159-507 | both invariants hold along every run with at least one worker |
| Dispatch.PassHandsOverTheReadyExactly | server/src/server.c:424-484 | a complete pass hands over exactly the clients select reported if and only if none of them turns out disconnected |
| Dispatch.PassEndsAtTheFirstDisconnected | server/src/server.c:446-463 | otherwise it hands over exactly the ready clients above the first disconnected one |
| Dispatch.PassHandsOverExactlyTheReady | server/src/server.c:424-484 | a pass in which nobody turns out disconnected hands over exactly the clients select reported, each once |
| Dispatch.ScanEndsWhenAllAreCounted | server/src/server.c:424-484 | the scan ends because every ready descriptor is accounted for, never because it runs out of descriptors |
| Dispatch.DisconnectionIsRevisited | server/src/server.c:446-463 | after a disconnection the scan stands on the same descriptor |
| Dispatch.RevisitHandsOverNobody | server/src/server.c:446-463 | from there to the end of the pass nobody is handed over, and the ready clients still ahead stay in the select set |
| Dispatch.AllButOneCanSleepBesideWork | server/src/server.c:476-477 | for any number of workers from two upwards, a run after which two clients are pending and all workers but one sleep |
| Itinerary.StepLeads | server/src/server.c:159-507 | every step takes the client it is about exactly one stage on, from the select set to the scan, to the pending queue, to a worker, to the pipe and back, or out by a disconnection, and leaves all other clients where they are |
| Itinerary.EveryClientGoesRound | server/src/server.c:159-507 | in every interleaving what happens to one client comes in that order: each Take right after its hand-over, that right after it was found alive, that after it was accepted or read from the pipe, that after its worker finished |
| Itinerary.BetweenTwoTakes | server/src/server.c:446-477 | so between two times a worker takes one client it was read back or accepted anew, found alive, and handed over |
| Itinerary.QueueKeepsItsOrder | server/src/server.c:183-185 | the pending queue loses nobody and serves in the order of the hand-overs |
| Itinerary.PipeKeepsItsOrder | server/src/server.c:258-259 | the pipe loses nobody and gives back in the order the workers finished |
| Wire.RequestRoundTrip | client/src/file_storage_api.c:123-463 | what the client writes is what the server reads, rest of the stream untouched, if and only if the path has 1 to 108 characters and the data length does not read as a failure; longer paths arrive cut to 108, the rest is answered with the error that fits, after which exactly the flag and data of a write or append with an empty path are left unread |
| Wire.ReplyRoundTrip | client/src/file_storage_api.c:248-373 | an answer of the kind the call waits for, failure, content or list of files, is read back as sent, rest of the stream untouched, if and only if it is not an answer to an append with an empty file after one that is not empty; that one is misread |
| Wire.FieldsArrive | server/src/handle_client.c:146-239 | the fields of each operation are read in the order they are written, or the error that fits is found |
| Wire.OpArrives | server/src/server.c:192-203 | the operation selects the handler it was written for |
| Wire.FilesArrive | server/src/handle_client.c:98-127 | a list of files of any length is read back file by file |
| Wire.ReplacedFilesArrive | client/src/file_storage_api.c:339-373 | the loop of an append reads a list of files of any length back unless, going through it, an empty file comes while a buffer is held that was freed |
| Wire.FreesAgainExactly | client/src/file_storage_api.c:344-373 | that comes to pass if and only if an empty file stands somewhere after one that is not, or a buffer was freed before and there is an empty file at all |
| Wire.PathArrives | shared_lib/src/utils.c:203-242 | a string of up to 108 characters is read back, an empty one is an error |
| Wire.BlockArrives | server/src/handle_client.c:238-245 | data is read back exactly if its length, cut to an int, is neither 0 nor -1 |
| Wire.IntWord | shared_lib/src/utils.c:158-201 | every int survives its four bytes, negative ones included |
| Wire.WordRoundTrip | shared_lib/src/utils.c:158-201 | a number that fits in its width is what its bytes spell |
| Wire.RequestsBegin | shared_lib/includes/server_api_utils.h:6-20 | a request begins with a zero byte and the number its operation has in the header, least significant byte first |
| Wire.RepliesBegin | shared_lib/includes/server_api_utils.h:6-20 | an answer begins with 11 if it is an error and 12 otherwise |
| Connections.Connection.ReadN | shared_lib/src/utils.c:158-176 | for any chunking, interruptions and failures: all bytes asked for, in order, and no more; 0 at the end of the stream; -1 exactly if a call failed, and then a proper part of the bytes |
| Connections.Connection.WriteN | shared_lib/src/utils.c:183-201 | for any chunking, interruptions and failures: 1 and exactly the given bytes, in order, exactly if no call failed or took nothing; otherwise -1 or 0 and a proper part of them |
| Connections.Connection.ReadString | shared_lib/src/utils.c:203-229 | reads the length and then that many characters, as the format says |
| Connections.Connection.WriteString | shared_lib/src/utils.c:231-242 | the length and then the characters if no call failed or took nothing; otherwise some of these bytes, in order, and never the result 1 unless all went well |
| Connections.Connection.TakeLeadingByte | server/src/server.c:450-451 | takes one byte if there is one; the end of the stream, an interruption or a failure counts as a disconnection |
| Connections.SendRequest | client/src/file_storage_api.c:123-463 | each call writes exactly the encoding of its request or, if a call failed or took nothing, some of its bytes in order; it gives up only after a failure |
| Connections.ReceiveRequest | server/src/server.c:191-256 | a worker and its handler consume exactly what the decoding of the stream consumes and get its result, errors included; if a read fails they answer with that error, unless it was that of the operation word, of which then exactly the bytes that have arrived count, on top of zeros |
| Connections.ReceiveFields | server/src/handle_client.c:146-730 | the handler of an operation reads exactly what the decoding of its fields consumes; if a read fails it answers with that error |
| Connections.SendReply | server/src/handle_client.c:42-58 | the server writes exactly the encoding of its answer or, if a call failed or took nothing, some of its bytes in order |
| Connections.ReceiveReply | client/src/file_storage_api.c:44-56 | a call reads exactly the decoding of the stream for the kind of answer it waits for; if a read fails it gives up |
| Connections.ReceiveFiles | client/src/file_storage_api.c:189-225 | the loop over the announced number of files reads exactly that many; if a read fails it gives up with that error |
| Connections.ReceiveReplaced | client/src/file_storage_api.c:339-373 | the loop of an append, with a buffer it frees in every round and does not reset, reads exactly what its decoding reads; if a read fails it gives up with that error |
| Connections.SendFiles | server/src/handle_client.c:105-127 | the loop over the files writes them one after the other or, if a call failed or took nothing, some of their bytes in order |
| Conversations.AnswersInRunsAreUnderstood | server/src/handle_client.c:42-144 | in every run of requests that came over the wire, every answer due to a client, whoever's request or disconnection brought it about, is decoded for that client's own last request to exactly what was meant, except that an append misreads exactly the answers with an empty file after one that is not |
| Conversations.DeliveredAnswersAreUnderstood | client/src/file_storage_api.c:44-56 | so every answer delivered is understood by the call that waits for it, with that one exception |
| Conversations.EveryAnswerIsUnderstood | server/src/handle_client.c:42-144 | every answer of one handler to its sender is of the kind its request awaits, and every answer to another client is a bare success or failure, and fits the limits of the format; each is read back as sent but for that exception |
| AppendAnswers.AppendIsMisreadExactly | client/src/file_storage_api.c:344-373 | the answer to an accepted append that wants the replaced files is misread if and only if, among the files to be replaced in their order, an empty one comes after one that is not |
| AppendAnswers.SecondFree | client/src/file_storage_api.c:344-373 | under FIFO with four bytes of memory, a run of one client that ends with an append whose answer, three replaced files of two, no and two bytes, it misreads |
| Conversations.WaitersExpectABareAnswer | server/src/handle_client.c:197-211 | only an open or a lock leaves its sender waiting, and both wait for a bare success or failure |
| Conversations.NamesStayFit | server/src/handle_client.c:146-186 | requests that came over the wire keep every stored name between 1 and 108 characters |

## Left out

- Sockets, select, pipes, signals and threads as system calls: a connection is a byte sequence with nondeterministic chunks, interruptions and failures, the pipe a queue of whole messages, a critical section one step. Of a request or an answer that a failed call has cut short it is claimed that only bytes of it were written, in its order, not which ones, and that a side whose own read fails gives up with an error, the operation word apart.
- The read-write locks: a section under the file system lock is one atomic step. Two reads share that lock in the server; the model runs them one after the other.
- The clock and qsort are parameters: any time stamp, and any permutation that is sorted when the comparator is consistent on the stored files. Strictly increasing clocks are assumed only in `CreationOrder`.
- What happens after a step through a stale tail: the model stops at `Undefined` and claims nothing.
- The list of replaced files itself is a sequence; only the lock queues it holds are linked lists on the heap. Path and data of a file are values, so freeing them is not modelled.
- LinkedLists.LinkedList.RemoveNode: freeing is not modelled; a removed node is no longer reached from the head.
- Connections.Connection.ReadString: what a string over 108 characters, or one cut short by the end of the stream, does to the buffer is the outcome `Wild`, about which nothing is claimed.
- A client whose leading byte could not be read counts as disconnected. When the same pass looks at it again, `Dispatch` takes it to be disconnected still, while in the server a read that was only interrupted, or failed once, could succeed the second time and queue the client.
- Descriptor reuse: a descriptor found disconnected is not closed by the server (server/src/server.c:146-154); the dispatch model allows any descriptor that is not connected to be accepted again, and `Protocol` never has two clients on one descriptor at a time.
- Shutdown, the count of clients, soft close, and the removal of a client for an invalid operation beyond leaving the dispatch.
- The out-of-memory branch of open, and every other allocation failure.
- Choice of the policy (server/src/server.c:627-629 takes it from the name of the log file) and configuration parsing.
- Logging, metric strings, per-thread request counters, the client's command line, saving received files to disk (the freeing of their buffers is modelled for an append, where it goes wrong).
- `icl_hash_update_insert`, `icl_hash_dump`, `icl_hash_printKeys`, `ll_to_array`, `ll_explode_str`: unused by the server's logic or print-only.
- Fairness of the threads: progress is stated as some step being possible, not as its being taken.
