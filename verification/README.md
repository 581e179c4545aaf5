# Key-value service and latency tester: a Dafny model

The repository holds two programs. OU4 is a key-value service: clients send byte-framed PDUs to a threaded
server, the server queues them and passes them one at a time to a hash table inside a kernel module,
mirrors every successful change into a text file, and replays that file at start-up. OU1/latt.c measures
wake-up latency with a hand-made semaphore, a poll loop and streaming statistics. This project models the
hard core of both and proves what they promise. `dafny verify dfyconfig.toml` checks all of it.

## Modules

- `CString`: bytes, C strings, `getline`, `strtok`. `Wire`: buffer builders, framing, the listener's loop.
  `Framing`: which byte streams are read as they were meant, and how the loop ends on each of them.
- `Kernel`: decoding from the reused netlink buffer, the request handlers, the reply path.
- `StoreFile`, `Durable`, `Mirroring`, `Server`: the text file, the pair (table, file) over all runs and
  restarts, what that means for their agreement, and the server object that implements it step by step.
  `FileSafety`: the same file under requests that are complete but not well-formed.
- `LinkedList`: the doubly linked list with two sentinels, as a heap structure.
- `Slots`, `Pipeline`: the server's threads as interleaved step systems. An action is one thread's stretch of
  code between two accesses to shared state; the theorems hold for every sequence of enabled actions.
  `Shutdown`: exactly when `close_server` and `join_threads` can still finish. `Serving`: exactly when what is
  queued can still be answered, and when `kernel_communication` can still return.
- `EndToEnd`: client, framing, queue, kernel and reply path composed. `Service`: the run in which everything
  every client sends is answered.
- `Semaphore`, `PollRound`, `Welford`: the three parts of latt.c. `Polls`: what a sequence of poll calls means,
  without the loop that deals with them.

The durable store is proved through one abstraction, the books: a list of entries for the file's lines and a
list of entries for the kernel table. Every request, restart and replay on the concrete pair, with whatever
kernel failures, is the same event on the books.

## Findings

- `close_server` can wait for ever, in three ways. A connection refused during shutdown keeps its slot number
  (server.c:538-546). `join_threads` can miss the last broadcast because its emptiness test is outside the
  lock (server.c:376-378). `close_server` can itself miss the return of the last slot, for the same reason
  (server.c:350-354). `Shutdown.LeavesIff` gives the exact condition under which it can still finish. Even
  after it has, `join_threads` can miss the exit broadcast and never return; `Shutdown.JoinerEndsIff` says
  exactly when it still can. Each of the four hangs has a run for every positive number of slots.
- The 16-bit PDU length wraps: an INSERT arrives whole exactly when its value has at most 65467 bytes. One
  that announces 65469 to 65535 bytes is taken as a stub of 1 to 67 bytes, and what follows is read from the
  middle of its key; one that announces 65468 makes `client_listener` queue empty PDUs for ever; an unknown
  op code makes it read through NULL.
- The netlink buffers are never cleared. A request is decoded independently of the leftovers exactly when it
  is INIT, or has a NUL after its header, or is an INSERT of at least two data bytes (which then overruns
  the key array whatever the leftovers are).
- An INSERT whose key or value holds a newline can make the file untokenisable: after key `k` with value
  `a`, newline, `b`, the next successful DELETE runs `strtok` past its unterminated copy
  (server.c:315-318). The client itself sends the key newline for an empty input line (client.c:81-90). A
  run stays clear of this exactly when every line that each stored INSERT prints has a byte other than ':'
  with a ':' after it.
- A 956-byte value is accepted and stored, but its replayed INSERT is one byte longer than the netlink buffer.
  Start-up stays inside its buffers, along a whole run, exactly when every line holding a ':' that each stored
  INSERT prints has at most 63 bytes in its first field and 955, newline included, in its second.
- Replay leaves `getline`'s newline on each value, once; no number of restarts adds a second one. A value with
  a ':' in it comes back from a full restart only up to that ':', and without the newline.
- `kernel_communication` can doze over a queued request: its emptiness test and its wait are not under one lock
  (server.c:101-104), so a request queued between them is answered only once another one arrives. Before the
  server is told to exit that, and a DELETE on an untokenisable file, are all that can keep a queued request from
  being answered; afterwards at most one more is taken, and the thread can miss the exit broadcast in the same
  way and never return.
- A pair survives the file exactly when its key is not empty, its data end in NUL and are at most 955 bytes,
  and neither key nor value proper holds a NUL, a colon or a newline.
- The replay does not look at replies: file and table agree after start-up exactly when no replayed INSERT
  failed. A key lost that way can be inserted again and then has two lines; what never happens, whatever
  fails, is a table entry without a line.
- The semaphore signals only when the value leaves 0: right for one caller of `sem_down`, and for any larger
  number a wake-up can be lost.
- `run_test` takes a `fork` that returned -1 for a child (latt.c:548-551) and waits for it for ever: start-up
  can still reach `run_parent` exactly when no `fork` has failed.
- `usec_since` is unsigned: with timestamps out of order it wraps, and so does the work time.

## Model

| member | source | states |
|---|---|---|
| CString.LinesFlatten | OU4/User/server.c:314-333 | reading a file line by line loses nothing: the lines concatenate back to the file |
| CString.LinesOfFlatten | OU4/User/server.c:201-217 | lines written back to back are read again as exactly those lines, the last one with or without newline |
| CString.TokensAt | OU4/User/server.c:210-221 | `strtok`'s first token lies between the leading ':'s and the next ':' or the end, and the further tokens are those of what follows |
| CString.TokensOfParts | OU4/User/server.c:210-221 | the same for a string put together from ':'s, a token and a rest that is empty or starts with ':' |
| CString.PadInjective | OU4/Kernel/netlinkKernel.c:252-259 | the table's 64-byte comparison of padded keys agrees with C-string equality, both ways |
| Wire.CreateInsert | OU4/Client/client.c:341-361 | the buffer is the INSERT message of the C string in the caller's key buffer, whatever follows that string's NUL |
| Wire.CreateKeyed | OU4/Client/client.c:363-397 | the same for GET and DELETE: 68 bytes, key zero-padded |
| Wire.CreateJoin | OU4/Client/client.c:431-449 | the JOIN buffer carries its announced length and the name with its NUL; of a name longer than 50 bytes, its first 51 bytes without a NUL |
| Wire.Socket.ReadHeaderThenBody | OU4/Resources/PDU_user.c:65-135 | takes the four header bytes and exactly as many body bytes as they announce |
| Wire.Socket.ReceivePdu | OU4/Resources/socket.c:129-148 | takes one PDU off the stream as the reference parser does, for every op code, closed and short stream, consuming nothing on end of stream or an unknown op code |
| Wire.ReceiveOne | OU4/Resources/PDU_user.c:7-230 | any message followed by any bytes is received as that message, leaving exactly those bytes |
| Wire.InsertArrivesIff | OU4/Resources/PDU_user.c:159-193 | an INSERT arrives whole if and only if its value has at most 65467 bytes |
| Wire.FramingRoundTrip | OU4/Resources/socket.c:129-148 | for every message sequence, repeated reception of the concatenation gives those messages in order and ends with the stream |
| Wire.ClientListener | OU4/User/server.c:587-610 | on every stream: the PDUs queued, and whether the loop ends with the peer's closing, starves, reads through NULL or spins, as `Hears` says; `Framing` says on the bytes which streams do which |
| Framing.WholeStreamsIff | OU4/User/server.c:587-610 | the loop reads a stream to the peer's closing without meeting an INSERT of more than 65467 bytes if and only if the stream is a concatenation of PDUs as long as they announce; it has then queued exactly those, without JOIN and QUIT |
| Framing.EndingIff | OU4/User/server.c:587-610 | on streams that meet no oversized INSERT the loop reads through NULL if and only if whole PDUs are followed by a header no PDU has, starves if and only if they are followed by the beginning of one more, and otherwise ends with the peer's closing; in each case it has queued what the whole PDUs mean |
| Framing.SpinningHeard | OU4/Resources/PDU_user.c:171-191 | behind any whole PDUs an INSERT announcing 65468 bytes makes the loop spin, with those PDUs queued |
| Framing.WholesUnique | OU4/Resources/PDU_user.c:7-37 | such a stream can be taken apart in only one way |
| Framing.OversizedStub | OU4/Resources/PDU_user.c:171-191 | an INSERT announcing more than 65467 bytes is taken as a stub of at most 67 bytes, and reading goes on right behind the stub |
| Framing.StubQueued | OU4/Resources/PDU_user.c:171-191 | a four-byte stream that is read to its end although it is no PDU |
| Framing.FramingUnambiguous | OU4/Resources/PDU_user.c:7-37 | two message sequences sent as the same bytes are the same messages, up to the spare header byte and the unsent end of a long name |
| Wire.SpinsIff | OU4/Resources/PDU_user.c:171-191 | reception takes nothing off the stream if and only if an INSERT announces 65468 bytes |
| Kernel.StaleBytesIrrelevant | OU4/User/server.c:120-125 | for every earlier buffer content the kernel decodes the request the PDU stands for |
| Kernel.StaleBytesIrrelevantIff | OU4/Kernel/netlinkKernel.c:114-121 | for every complete request, decoding is the same for all earlier contents as for a zeroed buffer if and only if it is INIT, holds a NUL after its header, or is at least 70 bytes long |
| Kernel.InsertPdu | OU4/Kernel/netlinkKernel.c:194-204 | a client's INSERT is decoded as its padded key and its exact data bytes |
| Kernel.KeyedPdu | OU4/Kernel/netlinkKernel.c:149-156 | a client's GET and DELETE are decoded as the padded key |
| Kernel.ErrorMarksUnchanged | OU4/Kernel/netlinkKernel.c:114-226 | on INSERT, with each of its kernel failures, and on DELETE, the reply starts with "Error" if and only if the table is unchanged |
| Kernel.CopyKey | OU4/Kernel/netlinkKernel.c:116-121 | strlen and copy into 65 zeroed bytes on the raw payload give the request's key, padded to 64 bytes, and a final NUL |
| Kernel.Module.ReadInsert | OU4/Kernel/netlinkKernel.c:182-226 | on the raw payload: the reply is an error if and only if a failure or the key was there, if and only if the table is unchanged; otherwise the key has exactly the announced bytes; no binding there was is lost or altered |
| Kernel.Module.ReadGet | OU4/Kernel/netlinkKernel.c:149-180 | on the raw payload: the bytes bound to the 64-byte key, or an error reply when there are none |
| Kernel.Module.ReadDelete | OU4/Kernel/netlinkKernel.c:114-147 | on the raw payload: afterwards the key is absent and every other binding is as before; the reply is an error if and only if the key was absent, if and only if the table is unchanged |
| Kernel.Module.Handle | OU4/Kernel/netlinkKernel.c:65-96 | working on the payload's bytes in place, the module's table and reply are those of the request that the buffer-independent parser reads, for every op code; an unknown one changes nothing, a repeated INIT and every GET leave the table alone |
| Kernel.PduToBuffer | OU4/Kernel/netlinkKernel.c:99-112 | the reply buffer is a KERNEL message whose unwritten header byte is arbitrary |
| Kernel.ReplyRoundTrip | OU4/Resources/PDU_user.c:232-252 | read out of the reused receive buffer, the reply is exactly the kernel's, whatever was in the buffer |
| StoreFile.KeepOthers | OU4/User/server.c:312-321 | the first pass succeeds if and only if every line has a token ended by ':', and then writes exactly the lines whose first `strtok` token is not the key |
| StoreFile.FirstFieldIsToken | OU4/User/server.c:314-318 | the field compared with the key is `strtok`'s first token, on every line that has one ended by ':' |
| StoreFile.OthersNotStarting | OU4/User/server.c:314-321 | so the lines kept are those whose first token is not the key, on every file with such lines |
| StoreFile.CopyBack | OU4/User/server.c:323-333 | the second pass copies the temporary file unchanged |
| StoreFile.RewriteWithout | OU4/User/server.c:312-333 | on every NUL-free file: after both passes the file's lines are the old lines without those whose first `strtok` token is the key, byte-identical and in order; it fails if and only if some line cannot be tokenised |
| StoreFile.DeleteRemovesEntry | OU4/User/server.c:312-333 | on a file of entries the rewrite removes the key's entry and nothing else |
| StoreFile.ParseLine | OU4/User/server.c:204-221 | the tokens of an entry's line are its key, padded, and its value with newline and NUL; the INSERT fits the payload |
| StoreFile.LineParts | OU4/User/server.c:204-221 | from a line of any number of fields the replay takes the first, cut or padded to 64 bytes, and the second with a NUL, and nothing of the others |
| StoreFile.LineWithoutValue | OU4/User/server.c:204-221 | of a line with one field the key and no data, of a line of ':'s neither |
| StoreFile.LineSends | OU4/User/server.c:201-236 | one INSERT of these for a line with a ':', nothing for any other |
| StoreFile.ValueReloads | OU4/User/server.c:201-217 | for a stored value with any ':'s, the replay sends its plain key and the value's first field, which has the newline only if no ':' follows it |
| StoreFile.ColonCuts | OU4/User/server.c:201-217 | a value with a ':' behind at least one byte is sent only up to that ':' |
| StoreFile.InsertLineIs | OU4/User/server.c:299-308 | what an INSERT prints, terminated or not: key, ':', the data up to their first NUL but never their last byte, newline |
| StoreFile.SurvivesIff | OU4/User/server.c:201-217 | of all pairs a complete INSERT can bring, the line written makes start-up send exactly that pair back, with one newline and fitting the buffer, if and only if key and value are plain, the key is not empty and the data are at most 955 bytes ending in NUL |
| Durable.ProcessInsert | OU4/User/server.c:300-309 | an INSERT adds its pair to table and file, or to neither |
| Durable.ApplyRefines | OU4/User/server.c:260-339 | one request or restart on table and file, with whatever failures, is that event on the books; table keys stay distinct and every table entry keeps a line |
| Durable.RunRefines | OU4/Kernel/netlinkKernel.c:114-251 | the same for every run of requests, restarts and replays, failing or not |
| Durable.ReplayAbsorbs | OU4/User/server.c:201-241 | the replay of any file of entries, on any table and with any failures: each line's pair is added unless its INSERT fails or its key is there |
| Durable.AbsorbedIff | OU4/User/server.c:201-241 | after a replay a key is in the table if and only if it was before or some line of it met no failure |
| Mirroring.EveryRunBacked | OU4/User/server.c:155-339 | from a first start, after every run with whatever failures, every table entry has a line with its value, up to one newline |
| Mirroring.EveryRunMirrors | OU4/User/server.c:260-339 | and if no full restart had a failing replay, file and table have as many lines as keys, no key on two lines, and each line's value is the table's up to one newline |
| Mirroring.LostKeyTwice | OU4/User/server.c:201-241 | a run with one failing replay after which a key has two lines |
| Durable.PartialRecovery | OU4/User/server.c:201-241 | from a file whose lines have distinct keys, a fresh module holds exactly the entries whose own INSERT met no failure; the file is untouched |
| Durable.Recovery | OU4/User/server.c:155-258 | replaying any such file into a fresh module without failures gives the same keys, each value with one more newline, and leaves the file untouched |
| Mirroring.MirrorsAfterBootIff | OU4/User/server.c:234-236 | after start-up the file mirrors the table if and only if no replayed INSERT failed |
| Durable.LiveRestart | OU4/User/server.c:155-258 | against a live module that agrees with the file the second INIT is refused, every replayed INSERT is refused whatever failures occur, and nothing changes |
| Mirroring.RestartsCollapse | OU4/User/server.c:201-241 | from every reachable store, any positive number of full restarts leaves what one restart leaves |
| Mirroring.RestartsReload | OU4/User/server.c:201-217 | where keys are distinct that is every value with one newline, however many restarts |
| Server.Server.Exchange | OU4/User/server.c:120-136 | through both reused buffers, the kernel does the request and the server holds exactly its reply |
| Server.Server.StoreData | OU4/User/server.c:260-339 | the file after an error, an INSERT, a DELETE (the old lines whose first `strtok` token is not the key) and any other request, and exactly when the DELETE pass is undefined |
| Server.Server.KernelCommunication | OU4/User/server.c:115-147 | one turn on any complete request moves table and reply as `Durable.Process` does, and the file too unless it is a successful DELETE on an untokenisable file |
| Server.Server.LoadStoredValues | OU4/User/server.c:178-258 | sends one INSERT per line with a colon, in file order, going on after failures, and leaves the file untouched; it stays inside its buffers if and only if every such line fits |
| Server.Server.InitHashtable | OU4/User/server.c:155-176 | start-up on any file is INIT followed by the replay, with whatever failures, and is defined if and only if every line fits |
| Server.ReachableIsSafe | OU4/User/server.c:201-321 | after every run of well-formed requests and any restarts, DELETE can tokenise every line of the file and start-up can load every line |
| FileSafety.InsertLineKeyedIff | OU4/User/server.c:308-318 | what an INSERT prints can be tokenised if and only if every line of `key:value` has a byte other than ':' with a ':' after it |
| FileSafety.OneLineFieldedIff | OU4/User/server.c:308-318 | without newlines that is: the key has a byte other than ':', or the value has one with a ':' after it |
| FileSafety.InsertLineLoadableIff | OU4/User/server.c:204-234 | what an INSERT prints can be loaded if and only if every line of `key:value` with a ':' has at most 63 bytes in its first field and 955 in its second, newline included |
| FileSafety.OneLineMeasuredIff | OU4/User/server.c:204-234 | for a key without ':' and newline and a value without newline that is: the value's first field has at most 955 bytes |
| FileSafety.ReadableStep | OU4/User/server.c:293-333 | of all complete requests only an INSERT of an absent key that meets no failure can spoil a file, for DELETE or for start-up, and it does if and only if what it prints fails the respective test |
| FileSafety.RunReadableIff | OU4/User/server.c:98-150 | every file along a run of complete requests can be tokenised (loaded) if and only if every stored INSERT of the run passes |
| FileSafety.ConcurrentlyReadable | OU4/User/server.c:98-150 | then, in every interleaving and at every moment, `store_data` never goes astray, and a server started from the file as it is stays inside its buffers |
| FileSafety.SpoilingInsert | OU4/User/server.c:312-318 | an accepted INSERT after which DELETE cannot tokenise the file |
| FileSafety.NewlineKeySpoils | OU4/Client/client.c:81-90 | so does every INSERT under the key that the client sends for an empty line |
| FileSafety.OverlongInsert | OU4/User/server.c:214-234 | an accepted INSERT of any 955 plain bytes, after which start-up overruns its buffer |
| FileSafety.ColonLost | OU4/User/server.c:201-234 | the whole way of a value with a ':': accepted, in table and file whole, and in the table of a fresh module only up to the ':' |
| LinkedList.LList.constructor | OU4/Resources/list.c:5-14 | a new list is empty, with both sentinels in place |
| LinkedList.LList.InsertFirst | OU4/Resources/list.c:69-87 | puts a new node in front; all links mutually inverse and consistent with the sentinels |
| LinkedList.LList.InsertLast | OU4/Resources/list.c:89-112 | the same at the end |
| LinkedList.LList.Unlink | OU4/Resources/list.c:118-133 | the four-way pointer surgery takes out exactly the node at any position |
| LinkedList.LList.RemoveFirst | OU4/Resources/list.c:114-141 | returns the first datum and leaves the rest |
| LinkedList.LList.Remove | OU4/Resources/list.c:210-242 | takes out the node, returns its successor; on an empty list does nothing and returns its argument |
| LinkedList.LList.Length | OU4/Resources/list.c:327-337 | counts the nodes and terminates |
| LinkedList.LList.Free | OU4/Resources/list.c:295-306 | terminates having freed each datum exactly once, front to back |
| LinkedList.PerformAll | OU4/Resources/list.c:69-242 | every sequence of calls returns what it would on a plain sequence and leaves a valid list of that sequence |
| LinkedList.ResultAt | OU4/Resources/list.c:69-242 | in such a sequence each call returns what it returns on the sequence the calls before it have left |
| LinkedList.RemoveFirstPdu | OU4/Resources/list.c:172-208 | the caller gets a fresh copy with identical bytes, sharing nothing with the queue |
| LinkedList.WithoutFirstAt | OU4/User/server.c:631-639 | removing the node at the first match is removing the first occurrence of the socket |
| LinkedList.CloseConnectedClient | OU4/User/server.c:622-648 | removes the first entry of the client's socket, or nothing when there is none |
| Slots.StepInv | OU4/User/server.c:371-396 | every step of every thread keeps slot conservation, handle use, flags and the consumers' knowledge |
| Slots.SlotConservation | OU4/User/server.c:496-567 | in every interleaving each slot number is in exactly one place, and none is dropped before `closeAllClients` |
| Slots.HandlesJoinedOnce | OU4/User/server.c:383-391 | no handle is overwritten before it is joined, and each created thread is joined at most once |
| Slots.ConsumersNeverCrash | OU4/User/server.c:374-391 | neither the acceptor nor the joiner ever removes from an empty list |
| Slots.ShutdownSafe | OU4/User/server.c:341-363 | once `close_server` is out of its wait loop no client thread runs or is unjoined, the terminated list is empty, and no later step starts one |
| Slots.DroppedBlocksShutdown | OU4/User/server.c:538-546 | once a slot has been refused, no continuation lets `close_server` out of its loop |
| Slots.ShutdownCanHang | OU4/User/server.c:522-548 | for every positive number of slots there is such a run |
| Slots.AllPresent | OU4/User/server.c:350 | a free list of n different numbers below n holds them all |
| Shutdown.LeavesIff | OU4/User/server.c:341-363 | at every moment of every run, some continuation takes `close_server` out of its loop if and only if it is out, or nothing is dropped or bound to be dropped, no terminated thread waits for a joiner that nobody will wake, and `close_server` does not sleep with every slot back |
| Shutdown.WayOut | OU4/User/server.c:350-354 | under that condition a continuation that leaves the loop is constructed |
| Shutdown.DoomedForever | OU4/User/server.c:376-378 | without it no continuation leaves the loop |
| Shutdown.LostWakeupHangs | OU4/User/server.c:374-382 | for every positive number of slots a run with nothing dropped that hangs because the joiner missed the last broadcast |
| Shutdown.MissedReturnHangs | OU4/User/server.c:350-354 | likewise a run that ends with every thread joined and every slot back, and `close_server` asleep for good |
| Shutdown.JoinerEndsIff | OU4/User/server.c:371-396 | at every moment of every run, `join_threads` can still return if and only if it has, or the loop of `close_server` can be left and is not, or it has been left and the exit broadcast is still to come or has reached the joiner |
| Shutdown.ExitMissed | OU4/User/server.c:376-381 | for every positive number of slots a run in which `close_server` finishes and `join_threads` sleeps for good |
| Pipeline.StepInv | OU4/User/server.c:98-150 | every step keeps the queue's history, one request in flight, and agreement with sequential processing, up to and including a `store_data` that goes astray |
| Pipeline.OrderKept | OU4/User/server.c:98-150 | what the kernel got is a prefix of the insertion order, each client's requests in order, at most one in flight, no removal from an empty queue |
| Pipeline.RepliesMatch | OU4/User/server.c:115-137 | the i-th reply received, and the i-th forwarded, answers the i-th queued request as if one thread had done all the work; between turns so do table and file |
| Pipeline.ConcurrentRunsMirror | OU4/User/server.c:98-150 | in every interleaving of well-formed requests, between turns every table entry has a line, and the file mirrors the table if it did at the start |
| Pipeline.QueueIsHeard | OU4/User/server.c:587-607 | in every interleaving, each client's part of the queue's history followed by what its listener will still hear is all there was to hear on its connection |
| Serving.CatchesUpIff | OU4/User/server.c:98-150 | at every moment of every run before `exitServer` is set: some continuation answers everything queued and passes the answers on if and only if no queued DELETE meets a file it cannot tokenise and the consumer does not doze over a queue that no client will safely add to |
| Serving.WakeUp | OU4/User/server.c:604-607 | a sleeping consumer is woken by any client with a request to come, once its listener has read up to it |
| Serving.StrandedForever | OU4/User/server.c:98-150 | without that condition no continuation answers everything |
| Serving.OneMoreAtMost | OU4/User/server.c:98-113 | once `exitServer` is set at most one more request is handed to the kernel, and none if the consumer was not past its exit test |
| Serving.EndsIff | OU4/User/server.c:98-150 | once `exitServer` is set, at every moment: `kernel_communication` can still return if and only if it is about to test the flag, or deals with a request that does not lead it astray, or rests and the exit broadcast or a client's request is still to come |
| EndToEnd.StreamHeard | OU4/User/server.c:587-607 | what a listener hears on a client's connection is exactly that client's requests, in order, up to its closing |
| EndToEnd.QueueIsFed | OU4/User/server.c:587-607 | in every interleaving, each client's part of the queue is a beginning of what its listener hears |
| EndToEnd.QueueMerges | OU4/User/server.c:604-607 | so the queue is a merge of beginnings of the clients' request sequences |
| EndToEnd.RepliesArrive | OU4/Resources/PDU_user.c:106-135 | a client reads back exactly the replies, whatever is in the spare header byte |
| EndToEnd.EntriesRepresent | OU4/Kernel/netlinkKernel.c:182-226 | every table that well-formed requests, restarts and replays lead to represents an abstract map, so the following theorems start from any of them |
| EndToEnd.SessionRefines | OU4/Kernel/netlinkKernel.c:99-226 | from any such table and with any kernel failures, requests are answered as by an abstract map in which the first successful INSERT wins |
| EndToEnd.AbsentIff | OU4/Kernel/netlinkKernel.c:114-226 | a key is absent if and only if its initial value and every successful INSERT were deleted later |
| EndToEnd.LiveValue | OU4/Kernel/netlinkKernel.c:182-226 | a key's value is that of its first successful INSERT since its last DELETE, and that INSERT was answered with success |
| EndToEnd.GetReplies | OU4/Kernel/netlinkKernel.c:149-180 | the abstract GET is that value, or the initial one if never deleted, or else the not-found reply |
| EndToEnd.InterleavedDelivers | OU4/User/server.c:98-150 | in every interleaving, from the bytes on the clients' connections to the bytes read back: the replies forwarded so far answer a merge of the clients' requests |
| EndToEnd.GetDelivers | OU4/Client/client.c:341-397 | so in every interleaving every GET delivers the first successful INSERT since the key's last DELETE, or the value the table began with, or the not-found reply |
| EndToEnd.CarriedIff | OU4/Client/client.c:341-397 | of all messages that can be built, the ones these theorems are about are exactly those whose PDU `kernel_communication` can carry |
| Service.EverybodyHeard | OU4/User/server.c:587-607 | for any clients there is a run that queues every request of every client |
| Service.EverythingCanBeServed | OU4/User/server.c:98-150 | for any clients whose INSERTs print only lines with a field, and any readable file, there is a run in which every request is queued, answered and delivered, every GET with the right answer |
| Semaphore.ValueIsUpsMinusDowns | OU1/latt.c:164-185 | with any number of callers and spurious wake-ups, value is ups minus completed downs and never negative |
| Semaphore.OneWaiterSleepsAtZero | OU1/latt.c:164-185 | with one caller of `sem_down`, an unsignalled sleeper means the value is 0 |
| Semaphore.LostWakeupIff | OU1/latt.c:178-185 | a wake-up can be lost if and only if at least two threads may call `sem_down` |
| Semaphore.StartUpBarrier | OU1/latt.c:545-558 | past its k-th `sem_down` the fork loop has had no failed fork, all k children are present and the value is 0; `run_parent` starts with all |
| Semaphore.SleepingMeansMissing | OU1/latt.c:547-556 | a parent asleep unsignalled waits for a forked child that has not called `sem_up`, or a fork has failed |
| Semaphore.StartUpCanGoOnIff | OU1/latt.c:545-558 | at every moment start-up can still reach `run_parent` if and only if no fork has failed |
| Semaphore.FailedForkHangs | OU1/latt.c:547-556 | for every positive number of clients a run in which the first `fork` fails and the parent sleeps for good |
| Semaphore.StartUpTerminates | OU1/latt.c:545-558 | start-up of n clients takes at most 6n + 3 steps plus two for each spurious wake-up, failed forks or not |
| Welford.WelfordStep | OU1/latt.c:81-92 | adding a sample adds delta times its distance to the new mean to the sum of squared deviations |
| Welford.Stats.Update | OU1/latt.c:81-92 | after any updates n·mean is the sum, M2 the sum of squared deviations, max the true maximum |
| Welford.MeanMinimises | OU1/latt.c:81-92 | the tracked mean is the centre with the least sum of squared deviations, by exactly n times the squared distance |
| Welford.DeviationAtMean | OU1/latt.c:109-117 | M2 is the sum of squares minus mean times sum |
| Welford.TextbookFormula | OU1/latt.c:109-117 | and so equals the comment's (sum of squares) - (square of sum) / n |
| Welford.Stats.Variance | OU1/latt.c:118-123 | the variance is the comment's and not negative, and undefined exactly for a single sample |
| PollRound.WorkDelayIsDifference | OU1/latt.c:249-257 | with timestamps in order, neither unsigned subtraction wraps |
| PollRound.UsecWraps | OU1/latt.c:249-257 | with the end before the start the difference wraps to 64 bits and is then divided |
| PollRound.WorkDelayWraps | OU1/latt.c:391-411 | with the work stamp before the wake-up stamp the logged work time wraps too |
| PollRound.Parent.ReadReply | OU1/latt.c:391-411 | a full read logs one entry with the delays of that entry, a short one fails and logs nothing |
| PollRound.Parent.ReadTs | OU1/latt.c:413-432 | succeeds if and only if no ready descriptor is in error or short, and has then read and disarmed exactly the readable clients, stopping early without missing one |
| PollRound.CountDisarmed | OU1/latt.c:514 | poll never reports more replies than are pending, and what is subtracted is what was disarmed |
| Polls.Verdict | OU1/latt.c:495-515 | a loop that stops at the first bad call, or as soon as everybody has been read, gives up and completes exactly under those conditions |
| Polls.TroubleFree | OU1/latt.c:495-515 | without an interrupted call, an error and a short reply no round is given up, and it completes if and only if every client is readable in some snapshot, in whatever order and grouping |
| Polls.GivenUpOver | OU1/latt.c:499-512 | a round is given up only over one of these |
| PollRound.Parent.PollTurn | OU1/latt.c:497-514 | one poll fails if and only if it is interrupted, reports a descriptor in error, or a client's first reply is short; otherwise it logs the first replies of exactly the clients first readable in it, and pending is the number of those never readable so far |
| PollRound.Parent.PollLoop | OU1/latt.c:495-515 | over any sequence of polls: gives up if and only if a first bad call comes before everybody has been readable, completes if and only if everybody has been readable before any bad call; pending is the number of armed clients, and exactly the others have been logged, each with its first reply |
| PollRound.Parent.Round | OU1/latt.c:476-515 | with the same exact conditions: a round that completes has logged every client exactly once, with its first reply of the round, against its own timestamp of that round |

## Left out

- Sockets, netlink, work queues, the regular expression engine and the file system are byte sequences and step
  inputs; the pattern `.*:.*` is "holds a colon".
- Short reads and `recv` errors: the read loops restart instead of accumulating, so every `recv` is taken to
  deliver what it was asked for.
- The server's condition waits are modelled without spurious wake-ups; a signal sent between the unlocked
  test and the wait is lost, in the model as in the code. What is proved is safety and, in `Shutdown` and
  `Serving`, whether an end or an answer can still be reached; no fairness is assumed, so not that it will be.
- Memory is sequentially consistent: the unlocked tests of list heads and flags read the latest value.
- `clientThreadInfo` is shared by two lists and freed by one of them; slots and sockets are carried by value.
- Traversals of `clients_sockets` while another thread changes it; every reply is taken to reach every
  connected client. `close_server`'s draining of that list is not modelled.
- `client_JOIN` throws away the first PDU whatever it is; the listener model starts after it or at a JOIN.
- `list_length(availableThreads)` in `close_server` is one step.
- Durable theorems are about well-formed requests: keys of 1 to 63 bytes and values of up to 954 bytes with
  one terminating NUL, neither with inner NUL, colon or newline. `StoreFile.SurvivesIff` and `FileSafety` say
  what happens to the others.
- Server.Server.KernelCommunication: requires complete PDUs with a terminated key and INSERTs with at least
  one byte, because the C code leaves its buffers otherwise.
- Wire.CreateInsert: requires 64 readable bytes behind the key pointer, as does Wire.CreateKeyed; the client
  passes a 51-byte array (client.c:58) and `memcpy` reads past it, which is undefined in C.
- Wire.CreateKeyed: as Wire.CreateInsert.
- After a DELETE on an untokenisable file the C code is undefined; the step system stops there (`Lost`), and
  `FileSafety.ConcurrentlyReadable` says which queues never get there.
- A PDU whose key is unterminated or whose length exceeds the netlink buffer is not taken up by a listener of
  the step system.
- Kernel.ErrorMarksUnchanged: a failing removal in DELETE is not modelled; the C code then frees an object
  that is still linked.
- Failure to initialise the table, the unreachable "key does not match" reply, and
  replies when `response` cannot be allocated.
- The insides of the kernel's hash table: it is a map with lookup, insert if absent and remove.
- Floating-point rounding: Welford.Stats.Update is over reals; square roots are not taken.
- PollRound.Parent.Round: starts when the wake-ups have been written, with their timestamps given; sleeping,
  `__write_ts` failing and the application's exit end a round before that point.
- Deallocation, except that LinkedList.LList.Free visits each node once; node memory is never reused.
- `test_function`, menus, timing tests, printing, `llist_switch`, the SLIST helpers, OU4/User/netlinkUser.c and
  the other OU1 programs, which have no deep property.
