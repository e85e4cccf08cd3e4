# Verified models of the small systems programs

Each module models one of the repository's C programs and proves what that program is for. System calls are replaced by
the values they work on: a file descriptor is an array of bytes with a position, the file system is a map from normalised
paths to nodes, a semaphore is a natural number, pending signals are flags, a pipe is the sequence of what was written to
it, a network buffer is a sequence of bytes.

* **Scanner** (`Bytes`, `Ascii`, `BizzBuzz`). `transfer` reads a text once, keeps a running digit sum and the last
  character, and goes back to a token's start when the token has to be copied. It is proved to write the token-wise image
  of the longest prefix that ends in whitespace: a final token with no whitespace after it is not written. No assumption
  is made about the bytes of the input; `isspace` is taken as false above 127.
* **Backup daemon** (`FileTree`, `Mirror`, `Watches`, `Convergence`, `BackupDaemon`). The recursive scan is a method on
  a mutable tree, with the kernel's watches, the tables `wds` and `backs` and the event queue as fields. It ends even when
  the backup lies inside the tree being scanned, and it changes the backup only. Over every run of source changes and
  handled events, each source node is up to date, or a queued event names it, or it lies below a new directory that a
  queued event names. With an empty queue each source file's backup is its bytes, followed by what a longer file from
  before the daemon started leaves past them, and the rest of the backup is as it was. So the backup equals the source if
  and only if it held nothing but older copies.
* **Semaphore transfer** (`SemaphoreTransfer`, `SemaphorePrograms`). All interleavings of producer, consumer and the
  delivery of the stop signal. The output is a prefix of the input at all times, and a consumer that returns has written
  the whole input or all of it but the last byte. That last byte can be lost because its acknowledgement is not awaited.
  When the signal is delivered late the consumer writes one byte too many and blocks for good; the exact step at which
  either happens is stated, and no run goes beyond that.
* **Signal transfer** (`SignalTransfer`, `SignalPrograms`). All interleavings of sender, receiver and signal deliveries
  in any order. A receiver that finishes has written every full 8-byte chunk and the rest up to its first NUL, and has sent
  floor(L/8)+2 signals. Nothing coalesces and no wake-up is erased. If SIGTERM is delivered only after the receiver's look
  at `i`, the last chunk is taken for a full one; that is exactly when the transfer does not finish.
* **Shared stack** (`SharedStack`, `StackInterleaving`). Whole calls with their three wait modes refine a bounded
  last-in-first-out sequence, for any number of processes, as long as nothing commits between a call's final read of the
  count and its own commit. One pusher and one popper are safe in every interleaving of their semaphore operations, but the
  order of the elements is kept exactly when the count that was read is still current or the slots happen to agree.
* **UDP session layer** (`Arithmetic`, `IdFraming`, `KeyAgreement`, `CommandCipher`, `SessionServer`, `ClientSession`). Ids as
  text, the key exchange, XOR over whole buffers combined with C strings, and a client table with holes, up to one theorem
  from the client's random number to the commands the server's child decodes.
* **Ring and registry** (`ListRing`, `FieldRegistry`). The intrusive circular list on heap nodes, and the registry whose
  lookup gives a generic field its modulus for good.

## Where the code and its documentation differ

The models follow the code.

* `daemon/readme.md` says that only files modified since the last backup are copied and that gzip is called. `copy` copies
  always, byte for byte, and does not truncate the target.
* `trans/readme.md` speaks of SIGCONT; the programs use SIGCHLD.
* `udp/readme.md` describes a client command `broadcast`. The client compares the text with "broadcast" after it was
  XORed, so with the program's key no line without a NUL broadcasts (`CommandCipher.NeverBroadcasts`).
* `udp/readme.md` says `quit` shuts down the process working with the client. The child does exit (udp/server.c:157), but
  the client's slot and pipe stay: the server compares the XORed payload with "quit\n", so no command that the child can
  decode frees the slot, nor does the message of an interrupted client (`CommandCipher.NoCommandFrees`,
  `CommandCipher.InterruptFreesNothing`).

Three more things the proofs bring out. Ids do not tell all clients apart: two random numbers of the same sign give the
same id exactly if their leading digits differ by zeros at the end (`IdFraming.IdsCollideExactly`). Deleting the head of a
list that is not empty, as `list/main.c` does, leaves no way back to the head (`ListRing.DeleteHeadThenAdd`). And
`attach_stack` empties an existing stack before it fails for asking more slots than there are (`SharedStack.Stack.Attach`).

## Model

| member | source | states |
|---|---|---|
| BizzBuzz.Transfer | bizbuzz/bizzbuzz.c:8-45 | for every input the bytes written are the token-wise image of its longest whitespace-terminated prefix; the output file begins with them and keeps its old bytes past them; the loop ends although it goes back |
| BizzBuzz.EndToken | bizbuzz/bizzbuzz.c:19-40 | at the whitespace after a token its replacement is written, 98 105 122 122 for a multiple of 3, 98 117 122 122 for one of 5, both in this order for one of 15, or the token itself, and scanner and file position are back at that whitespace with sum and flag cleared |
| BizzBuzz.CopyToken | bizbuzz/bizzbuzz.c:27-36 | the rewind copies exactly the token and stops at the whitespace it came from |
| BizzBuzz.Decides | bizbuzz/bizzbuzz.c:15-25 | the flag, the digit sum mod 3 and the last character decide what the token's decimal value mod 3 and mod 5 decide |
| BizzBuzz.NumeralShape | bizbuzz/bizzbuzz.c:15-16 | a token is -?[0-9]+ exactly if no character raised the flag and it does not end in a minus sign |
| BizzBuzz.DivisibilityRules | bizbuzz/bizzbuzz.c:17-25 | value and digit sum agree mod 3; value and last digit agree mod 5 |
| BizzBuzz.RunningSum | bizbuzz/bizzbuzz.c:17-18 | the sum kept mod 3 with the C remainder stays congruent to the digit sum |
| BizzBuzz.MapTokensConcat | bizbuzz/bizzbuzz.c:8-45 | cutting the text after a whitespace byte cuts its image |
| BizzBuzz.MapTokensIdempotent | bizbuzz/bizzbuzz.c:8-45 | a second pass over the image changes nothing |
| BizzBuzz.WordsForNumeral | bizbuzz/bizzbuzz.c:21-25 | the bytes that replace a numeral, by its value |
| BizzBuzz.Numerals | bizbuzz/bizzbuzz.c:15-16 | a numeral is an optional byte 45 and bytes 48 to 57, with its decimal value; everything else is kept |
| BizzBuzz.TextLaw | bizbuzz/bizzbuzz.c:19-43 | texts are mapped token by token around the bytes 9 to 13 and 32, which are kept |
| BizzBuzz.TerminatedBytes | bizbuzz/bizzbuzz.c:41-42 | the prefix that is mapped ends in one of those bytes, and none comes after it |
| Ascii.Characters | bizbuzz/bizzbuzz.c:15-19 | the bytes of whitespace, digits and signs |
| Ascii.DecimalLaw | bizbuzz/bizzbuzz.c:17-18 | one more digit makes ten times the value and the digit |
| BizzBuzz.TerminatedIs | bizbuzz/bizzbuzz.c:41-42 | there is one longest prefix that ends in whitespace with no whitespace after it |
| Bytes.OutFile.Write | daemon/main.c:110-112 | writing over a file opened without truncation puts the bytes at the position and keeps all others, before it and past it |
| FileTree.BytesWritten | daemon/main.c:109-112 | byte by byte: a file written over begins with the data and keeps its old bytes past it, and no other node changes |
| Mirror.OutsideUnchanged | daemon/main.c:263-321 | a scan changes nothing outside the backup |
| Mirror.EqualUnlessLonger | daemon/main.c:109-112 | a scanned file equals its original afterwards if and only if its backup was absent or not longer |
| Mirror.BytesMirrored | daemon/main.c:263-321 | byte by byte: after a scan of S/p the backup of each file below begins with the file's bytes and goes on with what was there before |
| Mirror.DirsMirrored | daemon/main.c:263-321 | each directory below S/p gets one in the backup, and every other node of the tree stays as it is |
| Mirror.KeepsSameKinds | daemon/main.c:277-316 | a scan never puts a file where the source has a directory, nor the reverse |
| Mirror.ScopeGrowsByDir | daemon/main.c:290-313 | the scan of one subdirectory, on the tree the scan itself has changed, adds exactly that subtree to what is mirrored |
| Mirror.ScopeGrowsByFile | daemon/main.c:314-317 | the copy of one file adds exactly that path |
| Watches.AddWatchKeepsTables | daemon/main.c:128-149 | the tables keep, for each watched S/p, the path S/p and its backup B/p |
| Watches.ScanBegins | daemon/main.c:277-282 | making the backup directory and its watch is a scan of the directory alone |
| Watches.DirScanned | daemon/main.c:290-313 | a subdirectory's scan composes with the entries scanned before: tree, watches and tables |
| Watches.FileScanned | daemon/main.c:314-317 | so does a file's copy |
| Watches.BackupPassedOver | daemon/main.c:266-270 | turning back at the backup leaves nothing of the source out |
| Watches.ScanEnds | daemon/main.c:283-287 | when every entry but the backup was handled the whole subtree is mirrored and watched |
| BackupDaemon.FreshBackup | daemon/main.c:355-361 | a source without any backup yet is a state the daemon may start from, wherever the backup is to be |
| BackupDaemon.TodoShrinks | daemon/main.c:266-270 | the directories outside the backup below a subdirectory get fewer at each call, whatever the scan has added to the backup |
| BackupDaemon.Daemon.CopyBytes | daemon/main.c:111-112 | the byte loop leaves the source bytes followed by the target's old tail |
| BackupDaemon.Daemon.Copy | daemon/main.c:71-126 | byte by byte: the target is created if absent, begins with the source's bytes, keeps its own past them, and nothing else in the tree changes |
| BackupDaemon.Daemon.AddInotify | daemon/main.c:128-149 | a directory gets one descriptor, and both tables are set for it |
| BackupDaemon.Daemon.MonitorDirectory | daemon/main.c:263-321 | the recursion ends, mirrors the subtree exactly, watches every directory of it, and returns -1 without effect at the backup or a missing directory |
| BackupDaemon.Daemon.VisitEntry | daemon/main.c:288-317 | one entry extends the mirrored scope by exactly that entry |
| BackupDaemon.Daemon.NewEntry | daemon/main.c:185-218 | a path that appeared is scanned if it is a directory and copied otherwise |
| BackupDaemon.Daemon.HandleEvent | daemon/main.c:167-257 | one event is handled as the machine's step: skipped at the backup, copied, or scanned |
| BackupDaemon.Daemon.MonitorEvents | daemon/main.c:152-261 | once the queue is empty each source file's backup begins with its bytes and goes on with the old backup's, each directory's is a directory, all other backup nodes are as they were, nothing outside was touched, and the backup equals the source if and only if it held nothing but older copies |
| BackupDaemon.Daemon.Start | daemon/main.c:355-361 | over any backup whose nodes are of their originals' kinds the first scan brings it up to date and establishes the invariant with an empty queue |
| BackupDaemon.Daemon.Change | daemon/main.c:130-131 | a source change with its event keeps the invariant |
| Convergence.EmptyQueueUpToDate | daemon/main.c:152-261 | with an empty queue each source file's backup is its bytes over the old backup file, each directory's a directory, and all other backup nodes are as they were |
| Convergence.BytesUpToDate | daemon/main.c:109-112 | byte by byte: such a backup file begins with the source's bytes, and what follows stood at that place in the old backup |
| Convergence.AllBytesUpToDate | daemon/main.c:152-261 | the same for the whole backup, with its directories and unrelated nodes |
| Convergence.InStepExactly | daemon/main.c:109-112 | such a backup equals the source node for node if and only if the old one held no other nodes and no longer files |
| Convergence.ChangeKeepsInv | daemon/main.c:130-131 | creating a node or writing without shrinking, watched or not, keeps every node covered |
| Convergence.CopyKeepsInv | daemon/main.c:197-223 | copying the file an event names keeps every node covered |
| Convergence.ScanKeepsInv | daemon/main.c:201-215 | scanning the directory an event names covers everything that waited for that event |
| Convergence.SkipKeepsInv | daemon/main.c:178-182 | passing over the backup's own event loses nothing |
| Convergence.HandlesKeepsInv | daemon/main.c:167-257 | handling any event keeps the invariant and shortens the queue by one |
| Convergence.HandlesOnlyBackup | daemon/main.c:167-257 | handling any event changes nothing outside the backup |
| Convergence.FirstScan | daemon/main.c:361-361 | the first scan, over any backup whose nodes are of their originals' kinds, establishes the invariant |
| Convergence.NodeSet | daemon/main.c:110-112 | a source node that appears or grows leaves what its backup holds past its end as it was |
| Convergence.CopyKeepsBacking | daemon/main.c:109-112 | so does a copy, however often it is made |
| Convergence.RunInv | daemon/main.c:152-261 | the invariant holds in every state of every run |
| Convergence.RunOlder | daemon/main.c:152-261 | a backup that held only older copies at the beginning does so for good, since the source only grows |
| Convergence.Converges | daemon/main.c:152-257 | in every reachable state a source file has its image or is covered by the queue; an empty queue means an up-to-date backup, and equality exactly if it held nothing else; each live watch maps to the matching backup path |
| SemaphoreTransfer.StepKeepsInv | sh_memory/main.c:33-54 | every step of producer, consumer or signal keeps the invariant on tokens, cell, flag and output |
| SemaphoreTransfer.OutputInEveryRun | sh_memory/hand.c:44-53 | in every state of every run the output is a prefix of the input, with at most one byte after the whole of it |
| SemaphoreTransfer.FinishedOutput | sh_memory/hand.c:45-53 | a consumer that ends has written the input or all but its last byte; the byte is missing exactly if its token is left on the semaphore |
| SemaphoreTransfer.ProducerReturns | sh_memory/main.c:54-60 | when the producer returns and removes the shared memory, the consumer has returned or has written at least the whole input |
| SemaphoreTransfer.LostByte | sh_memory/main.c:47-51 | the consumer leaves its loop only by reading the flag after the kill was delivered, and loses a byte exactly if its token was the last byte's |
| SemaphoreTransfer.OverrunExactly | sh_memory/main.c:51-53 | a byte too many is written exactly if the consumer reads the flag for the final token while the signal is still pending |
| SemaphoreTransfer.OverrunIsForever | sh_memory/hand.c:45-51 | after that the consumer is never woken again |
| SemaphoreTransfer.PromptDelivery | sh_memory/main.c:51-53 | if the signal is delivered before the producer's final post, no run overruns |
| SemaphoreTransfer.LossHappens | sh_memory/main.c:47-51 | a run that loses the only byte of a file |
| SemaphoreTransfer.OverrunHappens | sh_memory/main.c:51-53 | a run that writes the only byte of a file twice |
| SemaphoreTransfer.DeadlockFree | sh_memory/main.c:33-54 | an unfinished reachable state has an enabled step, unless the consumer overran |
| SemaphoreTransfer.MeasureFalls | sh_memory/main.c:42-54 | a natural number falls with each step |
| SemaphoreTransfer.EveryRunEnds | sh_memory/main.c:33-54 | every run has at most 32L+69 steps, and ends finished or with one byte too many |
| SemaphorePrograms.ConsumerGoesOn | sh_memory/main.c:33-54 | a producer blocked on its semaphore always has a consumer that can go on |
| SemaphorePrograms.Processes.ProducerTurn | sh_memory/main.c:33-54 | each statement of the producer, done in place, is a step of the machine |
| SemaphorePrograms.Processes.ConsumerTurn | sh_memory/hand.c:38-53 | each statement of the consumer likewise |
| SemaphorePrograms.Processes.Handler | sh_memory/hand.c:18-21 | the handler likewise |
| SemaphorePrograms.Processes.Producer | sh_memory/main.c:17-61 | the producer returns in every execution, having read the whole input, and not before the consumer has returned or has written at least the whole input |
| SemaphorePrograms.Processes.Consumer | sh_memory/hand.c:23-57 | the consumer returns with the input or all but its last byte, or blocks after exactly one byte too many |
| SignalTransfer.StepKeepsInv | trans/main.c:40-72 | every statement and every delivery keeps the invariant |
| SignalTransfer.ArrivesIntact | trans/handler.c:82-82 | what is written for the last chunk is the input's tail exactly if that has no NUL; always if the length is a multiple of 8 |
| SignalTransfer.FinishedOutput | trans/handler.c:72-83 | under every interleaving a finished receiver has written the input up to the first NUL after its last full 8-byte chunk, and has sent floor(L/8)+2 signals |
| SignalTransfer.ExpectedBytes | trans/handler.c:80-82 | byte by byte: the expected file is the input up to the first NUL that comes after its last full 8-byte chunk |
| SignalTransfer.SenderReturns | trans/main.c:59-72 | when the sender returns the receiver has written all of that, or the input filled up to full chunks if it missed the last one |
| SignalTransfer.WrittenSoFar | trans/handler.c:72-80 | before that the output is a prefix of the input made of full chunks |
| SignalTransfer.LastChunkIsKnown | trans/handler.c:77-78 | at the test `i` is 1 for every full chunk and 0 for the last one, unless SIGTERM is still pending |
| SignalTransfer.MissedExactly | trans/handler.c:76-79 | the last chunk is mistaken for a full one exactly if `i` is read while SIGTERM is pending |
| SignalTransfer.OrderedDelivery | trans/main.c:63-69 | if no chunk is delivered while SIGTERM is pending, nothing is missed in any run |
| SignalTransfer.StopsSent | trans/main.c:63-72 | SIGTERM is sent with the last chunk and again at the end, and at no other time |
| SignalTransfer.MissHappens | trans/main.c:63-69 | with unordered delivery there is a run that misses the last chunk |
| SignalTransfer.NothingCoalesces | trans/main.c:65-69 | no signal is sent while the same one is pending at the same process |
| SignalTransfer.NoWakeupErased | trans/main.c:61-70 | a flag is cleared only while its wake-up is neither pending nor possible |
| SignalTransfer.DeadlockFree | trans/main.c:42-71 | an unfinished reachable state has a possible step, unless the last chunk was missed |
| SignalTransfer.MeasureFalls | trans/main.c:59-72 | a natural number falls with each step that is not a turn of a waiting loop |
| SignalTransfer.EveryRunEnds | trans/main.c:40-72 | every run has at most 18L+100 steps and ends with the sender returned and the receiver done with the expected file, or, if it missed the last chunk, waiting with the input filled up to full chunks |
| SignalPrograms.Processes.SenderTurn | trans/main.c:40-72 | each statement of the sender, done in place, is a step of the machine |
| SignalPrograms.Processes.ReceiverTurn | trans/handler.c:69-83 | each statement of the receiver likewise |
| SignalPrograms.Processes.Deliver | trans/handler.c:11-41 | each handler likewise |
| SignalPrograms.Processes.Transfer | trans/main.c:24-80 | the two programs, in any order of statements and deliveries, end like that after floor(L/8)+2 signals |
| SharedStack.Segment.Store | sh_stack/stack.c:102-107 | the locked end of a push appends one element |
| SharedStack.Segment.Take | sh_stack/stack.c:140-145 | the locked end of a pop removes the last element |
| SharedStack.Stack.Attach | sh_stack/stack.c:12-41 | attaching to a stack at rest succeeds, and keeps size, count and contents, exactly if the segment has the slots asked for; otherwise it returns null with the stack emptied and a capacity larger than the segment; a first attach makes an empty stack |
| SharedStack.Stack.Await | sh_stack/stack.c:78-101 | for each wait mode, how many of the others' calls pass before the count is read for the last time, and when the call fails |
| SharedStack.Stack.Push | sh_stack/stack.c:72-109 | a push appends to what the others left, or fails and changes nothing: at once in mode -1, never in mode 0, after the wait in mode 1, and always on a full stack only |
| SharedStack.Stack.Pop | sh_stack/stack.c:111-147 | a pop returns the last element of what the others left, or fails and changes nothing, likewise, on an empty stack only |
| SharedStack.Stack.GetSize | sh_stack/stack.c:60-64 | the capacity, never below the number of elements |
| SharedStack.Stack.GetCount | sh_stack/stack.c:66-70 | the number of elements |
| SharedStack.Stack.PrintAll | sh_stack/stack.c:155-175 | the elements from the oldest to the newest, with nothing changed |
| SharedStack.ApplyLaw | sh_stack/stack.c:72-147 | a push puts its value on top and a pop takes it off again; a push on a full stack and a pop on an empty one change nothing |
| StackInterleaving.StepKeepsExclusive | sh_stack/stack.c:102-107 | at most one process is between its down and its up of the mutex |
| StackInterleaving.StepRefines | sh_stack/stack.c:72-147 | an undisturbed step is one step of a bounded last-in-first-out sequence, failures included |
| StackInterleaving.RunRefines | sh_stack/stack.c:72-147 | so a run of any number of processes with any wait modes is a run of that sequence |
| StackInterleaving.LifoApplies | sh_stack/stack.c:72-147 | the effect of each outcome on the sequence, failures included |
| StackInterleaving.Outcomes | sh_stack/stack.c:78-101 | a call comes to its end only by releasing the mutex or by failing, fails only on a full or empty stack, at the first read in mode -1, at a later one in mode 1, and never in mode 0 |
| StackInterleaving.CallAdvances | sh_stack/stack.c:72-147 | each step brings a call nearer to its end, except for waiting in mode 0 on a full or empty stack |
| StackInterleaving.CallHasOneOutcome | sh_stack/stack.c:72-147 | over every run a call that ends has had exactly one outcome: its own value pushed, or a value popped, or a failure that mode 0 excludes |
| StackInterleaving.PairIsSafe | sh_stack/stack.c:72-147 | one pusher and one popper, in every interleaving: mutual exclusion, 0 <= count <= size, every slot access inside, and no blocking while the mutex is held |
| StackInterleaving.PushKeepsOrder | sh_stack/stack.c:103-105 | their push appends its value if and only if its count is current or the exposed slot holds that value |
| StackInterleaving.PopKeepsOrder | sh_stack/stack.c:141-143 | their pop removes the last element if and only if its count is current or the slots agree |
| StackInterleaving.StaleCountLosesValue | sh_stack/stack.c:74-105 | a run in which a pop between a push's read and its commit loses the pushed value |
| Arithmetic.CRemIs | modules/mn.c:14-17 | for either sign of both operands the remainder fits the quotient taken towards zero, is the smaller, and has the sign of the dividend |
| Arithmetic.MaskIsRemainder | modules/m16.c:3-6 | masking with 0b1111 is the remainder by 16 |
| Arithmetic.XorTwice | udp/my_server.h:38-38 | XOR with the same number undoes itself |
| Arithmetic.XorBits | udp/my_server.h:38-38 | bit by bit the result shows where the operands differ |
| Ascii.AtoiReads | udp/udp.c:45-45 | atoi reads a sign and digits back as their value |
| Ascii.AtoiLaw | udp/udp.c:128-128 | atoi passes over whitespace, takes a sign and the digits up to the first other character, and wraps the value to an int |
| IdFraming.ScaledIsRead | udp/client.c:21-28 | the digits kept from a number and its zeros are that number scaled to a fixed length |
| IdFraming.IdIsRead | udp/client.c:21-31 | the nine characters are a sign and digits, read back as the scaled number |
| IdFraming.IdIsUsable | udp/client.c:25-26 | an id is 0 only for the number 0, is never -1, and fits an int |
| IdFraming.SameTextSameId | udp/client.c:21-31 | two ids are the same text if and only if the server reads the same number |
| IdFraming.IdsCollideExactly | udp/client.c:25-26 | two random numbers give the same id if and only if they have the same sign and their first nine digits, eight behind a minus sign, differ by zeros at the end |
| IdFraming.ShortIdsCollide | udp/client.c:25-26 | for numbers no longer than that: if and only if the longer is the other with zeros appended |
| IdFraming.IdsCollide | udp/client.c:25-26 | a number of any length and its tenfold get the same id |
| IdFraming.FramingRoundTrip | udp/udp.c:123-128 | the connect message and every message with a payload give the server the same id, are never taken for one another, and the payload survives up to its first NUL and 246 characters |
| IdFraming.ClassifyLaw | udp/udp.c:200-214 | what the server makes of any text that fits its buffer: a greeting, a connection under up to ten characters, or a payload behind up to nine |
| IdFraming.Words | udp/udp.c:178-207 | the bytes of the three words the server compares with |
| IdFraming.HelloIsHeard | udp/udp.c:200-206 | the broadcast greeting, padded with any number of NULs, is recognised |
| KeyAgreement.Agreement | udp/dfke.c:5-23 | (g^a mod p)^b mod p = (g^b mod p)^a mod p for all g, a, b and p > 0 |
| KeyAgreement.KeysAgree | udp/dfke.c:5-23 | with modulus 256 the two keys agree for every base and exponents even through the casts to a signed char |
| KeyAgreement.SmallModulusAgrees | udp/dfke.c:5-23 | with a modulus of at most 128 as well |
| KeyAgreement.ProgramKeys | udp/client.c:193-205 | the program's constants give 33, 71 and on both sides 97, with every power below 2^64 |
| CommandCipher.Crypto | udp/my_server.h:38-38 | the loop XORs the whole buffer in place |
| CommandCipher.MaskedTwice | udp/my_server.h:38-38 | doing it twice restores the buffer |
| CommandCipher.PayloadShape | udp/client.c:103-109 | the payload is the XORed line and its padding up to the first key byte or 246 characters |
| CommandCipher.ChildSees | udp/udp.c:103-110 | the child's buffer shows the line as far as the payload went and key bytes after it |
| CommandCipher.CommandRoundTrip | udp/udp.c:161-174 | the child decodes the typed string if and only if it has at most 245 characters and does not contain the key; otherwise its buffer holds no terminated string |
| CommandCipher.BroadcastExactly | udp/client.c:113-113 | the client broadcasts exactly for lines that begin with the XOR of "broadcast" |
| CommandCipher.NeverBroadcasts | udp/client.c:108-118 | with the program's key no line without a NUL is one |
| CommandCipher.FreesExactly | udp/udp.c:178-189 | the server frees a slot exactly for lines that begin with the XOR of "quit\n" followed by the key |
| CommandCipher.NoCommandFrees | udp/udp.c:178-189 | no command that the child can decode is one |
| CommandCipher.InterruptFreesNothing | udp/client.c:8-19 | the message of an interrupted client reaches the server as "quit" without a line end, which frees no slot |
| CommandCipher.Sender | udp/client.c:101-130 | one line in place: what is sent, and that the client exits exactly if it sent a line that begins with 113 117 105 116 |
| CommandCipher.ChildReads | udp/udp.c:104-110 | one payload in place: the command that is executed |
| SessionServer.Server.ConnectId | udp/udp.c:48-57 | the id is written to the first free or own slot, and nothing else changes |
| SessionServer.Server.FindId | udp/udp.c:59-65 | the first slot with the id, or -1 |
| SessionServer.ConnectLaw | udp/udp.c:48-57 | a connection fails, without effect, exactly if no slot is free or its own; else the first such slot starts afresh |
| SessionServer.DataLaw | udp/udp.c:159-191 | a message fails, without effect, exactly for id -1, for an id in no slot, and for a pipe that is not open; else its first slot's pipe gets the payload, and "quit\n" frees the slot |
| SessionServer.Server.ComConnect | udp/udp.c:120-157 | a connection takes a slot and opens its pipe, or fails when the table is full |
| SessionServer.Server.MasterHandler | udp/udp.c:159-191 | a message goes to the pipe of its id and may free the slot; unknown ids, -1 and closed pipes are errors without effect |
| SessionServer.Server.ServerHandler | udp/udp.c:193-220 | one datagram is one step of the table |
| SessionServer.LiveAndHoles | udp/udp.c:48-57 | live ids and free slots add up to the table |
| SessionServer.RoomIsHole | udp/udp.c:50-56 | a new client finds a slot exactly if fewer sessions are live than there are slots |
| SessionServer.StepRefines | udp/udp.c:193-220 | a step of the table with its holes is a step of a map from live ids to sessions, with the same result |
| SessionServer.ReconnectExactly | udp/udp.c:50-54 | connecting again under a live id keeps the slots distinct if and only if its slot comes before the first hole |
| SessionServer.RunRefines | udp/udp.c:193-220 | so it is over every run in which ids connect only while not registered |
| SessionServer.SessionIsHistory | udp/udp.c:159-191 | a session holds what was sent under its id since it connected, in order |
| SessionServer.SessionIsGone | udp/udp.c:178-189 | a session that was freed is gone until its id connects again |
| SessionServer.Routing | udp/udp.c:159-191 | each live client's slot is its own, and its pipe holds exactly those payloads |
| ClientSession.SentIsWritten | udp/client.c:195-203 | the key message and the lines a client sends arrive as their payloads in order; one of them frees the slot exactly if a line's payload is "quit
" |
| ClientSession.EndToEnd | udp/client.c:162-207 | whatever other clients do and whatever the client types, short of a line that frees the slot: its pipe holds its key and its lines, both sides share the key 97, and of each line the child decodes the typed string if and only if that has at most 245 characters and no key among them |
| ClientSession.CommandsArrive | udp/client.c:101-135 | so all lines of at most 245 characters without a NUL and without the key arrive as typed |
| ClientSession.FreeingLine | udp/udp.c:178-189 | after a line that does free the slot the client's id is registered nowhere, unless it connects again |
| ClientSession.LoneClient | udp/client.c:162-207 | the theorem's conditions are met by a client that is alone with the server |
| ClientSession.KeysMeet | udp/udp.c:92-101 | the server's open key passes its own XOR unchanged and gives the client the same key |
| ListRing.ListInit | modules/field.h:39-43 | a head alone is a ring |
| ListRing.AddBetween | modules/field.h:31-37 | a node put between two neighbours of a ring leaves a ring with it at that place |
| ListRing.ListAdd | modules/field.h:45-48 | prepends |
| ListRing.ListAddBack | modules/field.h:49-52 | appends |
| ListRing.ListDel | modules/field.h:54-58 | removes that member and leaves its own links as they were |
| ListRing.WalkForward | modules/field.h:27-29 | the walk ends and visits the members in order |
| ListRing.WalkBackward | list/main.c:12-16 | the walk along `prev` visits them in reverse |
| ListRing.AddThenDelete | modules/field.h:45-58 | deleting a node right after adding it with list_add restores every link |
| ListRing.InsertThenDelete | modules/field.h:31-58 | so it does for a node added at any other place, such as the end |
| ListRing.Perform | list/main.c:19-46 | any run of additions of new nodes and deletions of members leaves a ring of exactly the members the run left |
| ListRing.MembersWereAdded | list/main.c:33-41 | every member was added by the run |
| ListRing.Permitted | list/main.c:33-46 | any node but the head and the members may be added, and any member deleted |
| ListRing.MembersExactly | list/main.c:33-46 | the members are the nodes that were added and not deleted since |
| ListRing.OrderOfMembers | list/main.c:33-41 | of two members the one added later stands before the other if it was prepended and behind it if appended, whatever was added or deleted since |
| ListRing.PrependedInReverse | list/main.c:33-36 | additions with list_add alone leave the nodes in reverse order |
| ListRing.AppendedInOrder | list/main.c:37-40 | additions with list_add_back alone leave them in order |
| ListRing.NoWayBack | modules/field.h:45-58 | with the head deleted and a node added, no place of a ring would be the head |
| ListRing.DeleteHeadThenAdd | modules/field.h:45-58 | after list_del of the head and list_add, for every list: the head has a ring again if and only if the list was empty |
| ListRing.DeleteHead | list/main.c:49-63 | after the head itself was deleted and a node added, no sequence of nodes is a ring with that head |
| FieldRegistry.MaskAgreesExactly | modules/m16.c:3-6 | the mask and the remainder agree on modulus 16 if and only if the sum is not negative or is a multiple of 16 |
| FieldRegistry.ComputeTraps | modules/mn.c:14-17 | nothing is returned exactly if the addition overflows or the division traps |
| FieldRegistry.ComputeValue | modules/mn.c:14-17 | the value of the mask and of the remainder for sums of either sign |
| FieldRegistry.NegativeModulus | modules/mn.c:14-17 | the sign of a modulus does not matter |
| FieldRegistry.OneFieldPerModulus | modules/field.c:26-40 | a registered modulus changes nothing; a new one uses up exactly one generic field, the one registered last, or fails when there is none |
| FieldRegistry.SumCorrect | modules/field.c:26-40 | for m > 0 and a sum that is not negative the result is (a+b) mod m whichever field serves it, and is missing exactly when no field is left |
| FieldRegistry.SumExactly | modules/field.c:26-40 | for any sum that fits an int the result is the residue, or that less the modulus if the sum is negative, the modulus does not divide it and a remainder serves the call |
| FieldRegistry.RunConserves | modules/field.c:26-40 | registered moduli and generic fields together keep their number over every run |
| FieldRegistry.RunCorrect | modules/field.c:26-40 | a run is answered rightly throughout if and only if it asks for no more new moduli than there are generic fields |
| FieldRegistry.ShippedFields | modules/mn.c:9-22 | with the two fields of the repository: if and only if it uses at most one modulus besides 16 |
| FieldRegistry.Registry.RegisterField | modules/field.c:3-13 | the new field is found before the older ones |
| FieldRegistry.Registry.GetField | modules/field.c:15-24 | the walk ends at the most recently registered field with that modulus, or returns null |
| FieldRegistry.Registry.Sum | modules/field.c:26-40 | result and fields afterwards are those of the specification, and the ring is kept |

## Left out

* System calls, sockets, inotify, forks, shared-memory attachment, shared libraries and printing: they are replaced by the
  values they deliver. Calls that cannot fail by the program's own doing are taken to succeed.
* Real time. `nanosleep` and polling are "other processes may act, then the count is read again".
* Memory sizes: path buffers, undersized allocations, the unterminated buffer in `gen_id`, strings copied into too small
  buffers, and the byte count given to `shmget` for the stack. A segment of
  `size` bytes is taken to have `size` slots, and a capacity to fit a semaphore.
* Integer widths, where they do not matter: counters and lengths are unbounded. `atoi`, `sum` and the casts to char have
  their widths; an overflow or a division trap in `sum` is a missing result. Converting an out-of-range number to char
  keeps its low eight bits.
* The daemon's 100 table slots: the tables are maps and descriptors are never used up. One inotify instance; the signals
  that change directories, and the shutdown by SIGINT, are not part of this model.
* Deleting, renaming and shrinking source files: the daemon does not propagate them. The IN_MOVED_TO branch is in
  `HandleEvent`, but no modelled source change raises that event.
* Links, special files and unreadable files; paths are normalised, and the source does not lie inside the backup. Where
  source and backup both have a node, both are directories or both are files, also when a source node appears.
* Source changes during a scan. One event is handled at a time, as one step.
- BackupDaemon.Daemon.ReadDir: returns the entries in any order and may or may not list a backup directory that was made during the scan; other entries made during a scan are below the backup.
- BackupDaemon.Daemon.MonitorEvents: returns when the queue is empty, where the program would wait for more events.
- BackupDaemon.Daemon.VisitEntry: is the body of the loop of `monitor_directory`, and `Begin` its part before the loop; the program has one function.
- BizzBuzz.EndToken: is part of the loop of `transfer`, as is `CopyToken`; the program has one function.
* The two transfers as separate programs: their statements are steps of one object's fields, with the statement each
  program is at as a field, because the two run at once. Semaphore waits interrupted by the handler are resumed; `kill`
  makes the signal pending, and a step of its own delivers it.
* trans: a second sender that is told off by `killrest`, SIGINT, a sender that starts before the receiver's handlers are
  installed, and short reads before the end of the file.
* sh_memory: reads and `st_size` are those of a regular file that does not change.
- SharedStack.Stack.Attach: attaching during another process's critical section, which resets its mutex, is left out; so are `detach_stack` and `mark_destruct`.
- SharedStack.Stack.SetWait: does not store the length of the timeout, because a timed wait is any number of other calls.
- SharedStack.Stack.Push: lets whole calls of other processes pass while it waits; single semaphore operations are interleaved in `StackInterleaving`.
- StackInterleaving.RunRefines: needs that no call commits while another is between its final read and its commit; for several pushers or several poppers that do overlap only mutual exclusion is proved (`StepKeepsExclusive`).
- SessionServer.Server.MasterHandler: counts a message to a slot whose pipe was never opened, which only id 0 can reach, as a write to a closed pipe; the program writes to a descriptor it never set.
- SessionServer.Routing: speaks of ids other than 0 and -1 that connect while not registered; what happens otherwise is in `ReconnectExactly` and `StepRefines`.
- ClientSession.EndToEnd: speaks of the lines that were sent, since a line that makes the client broadcast is not; datagrams that are lost or reordered on the network, and connections from several clients with colliding ids, are left out; the log is what the server received.
* The child's shell and its answers to the client (udp/server.c), the TCP variant, and pipes that fill up. A child keeps
  reading its pipe; a new connection under the same id starts a new pipe.
- KeyAgreement.Agreement: powers and remainders are exact, where the program uses `powl` and `fmodl`; for the program's constants every power is exact.
* The other programs of the repository (grep, pthreads, flocks, poll, msg, env, dir, inotify, socket, tcp, log) are thin
  wrappers over library calls.
