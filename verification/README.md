# Course exercises, verified: list, mailbox, pipes, logger

A Dafny model of the four parts of the repository that carry real invariants, with proofs of what they promise.

- **Intrusive list** (`LinkedList.dfy`, `ListRuns.dfy`, `Letters.dfy`). Nodes are objects with `prev` and `next`
  fields that the operations splice in place. A ghost sequence names the list a pointer belongs to and a ghost
  index its position in it. Every operation is proved for any member node and any signed 32-bit offset; runs of
  operations refine runs on a mathematical sequence; the letter counter uses the list as an indexed table.
- **Messages** (`Codec.dfy`). The 16-byte header struct of the 64-bit layout followed by the data, copied into
  and out of byte arrays, and the printed form of a message.
- **Shared-memory exchange** (`Shmem.dfy`, `Overlap.dfy`). Parent and child as two programs over a name table,
  semaphores, shared objects, descriptors and page-wise mappings, interleaved call by call and, where memory is
  shared, byte by byte; and a second pair that starts while the child of the first is still at its unlinks.
- **Pipe exchange** (`Pipes.dfy`). Processes that follow scripts of sends and receives over two byte queues of
  bounded capacity, each send being two writes and each receive two reads.
- **Logger** (`Decimal.dfy`, `Stamp.dfy`, `Logger.dfy`, `LogStream.dfy`, `Lifecycle.dfy`). The stamp text; any
  number of threads that append to one file, whatever it held before, through private buffers which stdio may flush in any part at any
  moment; one call in its own sequential form; thread creation, handle opening and closing, and join order.

How the pieces are stated. The list, the codec, the letter counter and the single log call are classes and
methods with loops, proved against functions on sequences. The concurrent parts are transition systems: a
function `Step` gives the outcome of one call, a predicate `Inv` holds initially and after every step, and the
theorems quantify over all schedules. Clocks, file contents, formatted texts, message payloads and struct padding
are arbitrary inputs.

Where the code and its comments differ, the model follows the code:

- `insert_at_position` returns the head, not NULL, when the offset leaves the list (`hw2/p6/linked_list.h`
  line 90 promises NULL).
- `delete_from_position` on the only node of a list removes nothing and returns that node.
- `get_offset` with offset 0 returns its argument even when that is NULL.
- `ftruncate` on the read-only descriptor of a mailbox fails and its result is ignored, so it is the writer's
  call that gives the object its size, possibly after the reader has mapped it.

`Basics.dfy` holds what several modules share.

Some promises hold only under a condition, which is stated exactly and proved in both directions:

- stamps have fixed width and sort as text precisely for seconds below 10^7 (`Stamp.FixedWidth`, `Stamp.SortableIff`);
- the log is sure to be in stamp order precisely when at most one thread writes it (`Logger.StampOrderIffOneThread`),
  and stamps that are out of order always come from overlapping calls (`Logger.OutOfOrderMeansOverlap`);
- a mailbox exchange stays inside its 1024-byte objects precisely for encodings of at most 1024 bytes
  (`Shmem.InObjectIffFits`), and it can complete precisely for encodings that fit the 4096-byte page such an object
  is mapped as (`Shmem.CompletesIffFits`);
- a mailbox exchange that starts when the previous parent has returned delivers under every schedule precisely when
  the previous child has made all its unlinks (`Overlap.NextDeliversIffChildDone`);
- a thread's closing message stays its last record precisely when it catches no signal after it
  (`Lifecycle.ClosingIsLast`), which the main thread can (`Lifecycle.SignalSpoilsClosing`) and a worker cannot.

## Model

| member | source | states |
|---|---|---|
| LinkedList.PositionsDiffer | hw2/p6/linked_list.c:168-179 | mutual links alone make a list acyclic: no node stands at two positions, so walking back always ends |
| LinkedList.SameNodeSameList | hw2/p6/linked_list.c:168-210 | a node belongs to at most one well-formed list and to one position in it, so lists that differ are disjoint |
| LinkedList.GetHead | hw2/p6/linked_list.c:168-179 | from any member the walk ends at s[0]; it needs only the back links, so it also works from a tail just detached |
| LinkedList.GetTail | hw2/p6/linked_list.c:181-192 | from any member the walk ends at the last node; NULL gives NULL |
| LinkedList.GetOffset | hw2/p6/linked_list.c:194-210 | from position i the answer is the node at i plus the signed offset, or NULL exactly when that is outside |
| LinkedList.Size | hw2/p6/linked_list.c:157-166 | the number of nodes from any member, modulo 2^64 |
| LinkedList.OffsetsCompose | hw2/p6/linked_list.c:194-210 | two moves reach what one move by the sum reaches when the node between exists, and NULL otherwise |
| LinkedList.InsertAtBeginning | hw2/p6/linked_list.c:22-39 | from the true head the list becomes [new] + s; only the new node and the old head are written |
| LinkedList.InsertAtEnd | hw2/p6/linked_list.c:42-60 | from any member or from NULL the list becomes s + [new] and its head is returned; only the new node and the old tail are written |
| LinkedList.Spliced | hw2/p6/linked_list.c:81-87 | the four writes of an insertion before s[j], and no others, make a well-formed list with the new node at index j |
| LinkedList.Unlinked | hw2/p6/linked_list.c:144-151 | the two writes of a removal, and no others, make a well-formed list without index j |
| LinkedList.InsertAtPosition | hw2/p6/linked_list.c:62-91 | s[..i+k] + [new] + s[i+k..] and its head when 0 <= i+k < n; otherwise no field of any node changes and the old head is returned; NULL starts a list |
| LinkedList.DeleteFromBeginning | hw2/p6/linked_list.c:94-106 | the rest of the list and its head, NULL for an emptied or empty list; the removed node is not written |
| LinkedList.DeleteFromEnd | hw2/p6/linked_list.c:108-127 | from any member the last node is removed and the head of the rest returned, NULL if none is left |
| LinkedList.DeleteFromPosition | hw2/p6/linked_list.c:130-155 | with two or more nodes exactly index i+k is removed, the surviving head returned and the removed node left as it was, also when it is the base; out of range, and for an only node, nothing changes |
| LinkedList.LinksDetermined | hw2/p6/linked_list.h:20-24 | two well-formed lists with the same node sequence agree on every prev and next field |
| LinkedList.InsertThenDelete | hw2/p6/linked_list.c:62-91 | deleting at the node just inserted restores every field of the original nodes |
| LinkedList.DeleteThenReinsert | hw2/p6/linked_list.c:130-155 | any node but the tail, deleted and put back before its old successor, restores every field |
| LinkedList.AppendThenDeleteEnd | hw2/p6/linked_list.c:42-60 | appending and removing the tail restores every field and the head |
| LinkedList.PushThenPop | hw2/p6/linked_list.c:94-106 | pushing and popping at the head restores every field and the head |
| ListRuns.RunBalances | hw2/p6/linked_list.c:22-155 | over any run of operations the final nodes plus those removed are the initial nodes plus those inserted, as multisets |
| ListRuns.RunDistinct | hw2/p6/linked_list.c:22-155 | no run ever lists a node twice |
| ListRuns.Execute | hw2/p6/linked_list.c:22-155 | operation by operation, with s the list before and k the position of the base: which nodes in which order the list consists of afterwards and which head is returned, out-of-range calls and deletions from a one-node list included |
| ListRuns.ApplyMeans | hw2/p6/linked_list.c:22-155 | the six operations on a sequence, written out as slices |
| ListRuns.PushesReverse | hw2/p6/linked_list.c:22-39 | insertions at the beginning alone leave the new nodes in reverse order before the old list |
| ListRuns.AppendsKeepOrder | hw2/p6/linked_list.c:42-60 | insertions at the end alone leave the new nodes in order behind the old list |
| ListRuns.FirstInFirstOut | hw2/p6/linked_list.c:42-106 | in any mixture of insertions at the end and deletions at the beginning, what has come out followed by what is left is the old list followed by what went in, in order |
| ListRuns.Run | hw2/p6/linked_list.c:22-155 | every run from NULL with pointers into the list and new nodes ends in the list that the run on sequences predicts, and writes only to nodes given to it |
| Letters.FoldFindsLetter | hw3/src/letters.c:50-52 | clearing bit 5 sends a byte to 'A'+i exactly when it is the upper- or lower-case letter i |
| Letters.BuildTable | hw3/src/letters.c:38-46 | the list built back to front holds the characters 65 to 90 in order with all counters 0, in new nodes only |
| Letters.CountByte | hw3/src/letters.c:50-54 | one byte raises the counter of its letter by one modulo 2^32, found through a non-NULL offset, and no other |
| Letters.CountLetters | hw3/src/letters.c:48-55 | after any input counter i holds the number of bytes equal to letter i in either case, modulo 2^32 |
| Letters.CountsAddUp | hw3/src/letters.c:48-55 | the 26 counts of a text sum to its number of ASCII letters: every letter is counted under one index |
| Letters.OccurrencesAreFound | hw3/src/letters.c:48-55 | a count is the number of positions of the text that hold the letter in either case |
| Letters.CountsFound | hw3/src/letters.c:33-54 | counter k belongs to character 65 + k and holds the number of positions with byte 65 + k or 97 + k, modulo 2^32 |
| Letters.CountersSumToLetters | hw3/src/letters.c:33-54 | below 2^32 bytes no counter wraps and together the counters hold the number of letters |
| Letters.ReportMatches | hw3/src/letters.c:57-63 | walking the list logs one line for each counter at the target, in list order |
| Letters.ReportExact | hw3/src/letters.c:57-63 | for every input and every letter c from A to Z, the line naming c is in the report if and only if the positions holding c or c + 32 number 3 modulo 2^32; below 2^32 bytes exactly 3 |
| Letters.ReportForm | hw3/src/letters.c:60 | every line of the report is the line naming some letter from A to Z |
| Letters.ReportSorted | hw3/src/letters.c:57-63 | the report is strictly alphabetical, so no letter is reported twice |
| Letters.LetterCounter | hw3/src/letters.c:19-66 | the messages of the whole worker body for any file and for one that cannot be opened; all 26 counters and the reported letters in terms of the input bytes alone |
| Codec.HeaderRoundTrip | hw4/p2/inc/messages.h:29-32 | reading a header struct back from its 16 bytes gives the same type, padding and length |
| Codec.HeaderBytesRoundTrip | hw4/p2/inc/messages.h:29-32 | every 16 bytes are the bytes of exactly one header |
| Codec.HeaderLayout | hw4/p2/inc/messages.h:29-32 | the struct is 16 bytes: the type at byte 0, padding at 1 to 7, the length at 8 to 15, lowest byte first, weights written out |
| Codec.ParseLayout | hw4/p2/src/messages.c:72 | the same places are where a received header is read from |
| Codec.EncodingLayout | hw4/p2/src/messages.c:62-67 | an encoding is that struct followed by the data from byte 16 |
| Codec.RoundTrip | hw4/p2/src/messages.c:62-76 | decoding an encoded message followed by any bytes gives the message back |
| Codec.DecodeIff | hw4/p2/src/messages.c:70-76 | a buffer decodes to m exactly when it starts with m's encoding |
| Codec.PrefixFree | hw4/p2/src/messages.c:62-67 | no encoding is a prefix of another message's encoding |
| Codec.StreamUnambiguous | hw4/p2/src/messages.c:62-67 | encodings run together determine the list of messages |
| Codec.Memcpy | hw4/p2/src/messages.c:64-65 | the bytes land at their place and the rest of the buffer is untouched |
| Codec.MsgToMsgbuf | hw4/p2/src/messages.c:62-67 | the buffer holds the type at byte 0, the padding, the length from byte 8 and the data from byte 16; the rest of it is unchanged, and the result is exactly the bytes used |
| Codec.MsgbufToMsg | hw4/p2/src/messages.c:70-76 | the type is read from byte 0, the padding from 1 to 7, the length from 8 to 15 and the data from byte 16 on, into memory of its own |
| Codec.ReuseBuffer | hw4/p2/src/messages.c:62-76 | two messages through one buffer in turn: both come out right, and the first survives the reuse |
| Codec.MsgToStr | hw4/p2/src/messages.c:17-53 | the buffer starts with the literal text of each kind of message and its NUL: for strings the length in decimal and the data up to its first NUL, for LED messages off, on or unknown by the data byte 0, 1 or other; the rest of the buffer is untouched; NULL gives NULL |
| Codec.CStringStops | hw4/p2/src/messages.c:26 | what %s prints is the data bytes up to the first NUL, and stays inside the data exactly when there is one |
| Codec.StringPrintedSize | hw4/p2/src/messages.c:25-27 | a string message of L data bytes prints to at most L + 14 + digits(L) bytes, with equality exactly when no NUL comes before the last byte |
| Codec.TransportFitsText | hw4/p2/src/messages.c:17-53 | every printable message that fits a 100-byte transport buffer prints into a 100-byte text buffer |
| Codec.TextLimitIsTransportLimit | hw4/p2/src/messages.c:25-27 | for a string ended by its last byte the two limits are the same, and the text buffer is exactly full at L = 84 |
| Shmem.StepInv | hw4/p2/src/hw4p2_shmem.c:84-145 | every call of either process, and every byte copied, keeps names, handles, semaphores and mailboxes consistent |
| Shmem.QuietTable | hw4/p2/src/hw4p2_shmem.c:93-137 | between opening and unlinking no call changes which object a name or a handle stands for |
| Shmem.OpenTable | hw4/p2/src/hw4p2_shmem.c:171-198 | create-or-open gives the opener the one object of that name, shared or new, and leaves the other names alone |
| Shmem.UnlinkTable | hw4/p2/src/hw4p2_shmem.c:221-225 | unlinking keeps every handle to the object |
| Shmem.ReadAfterWrite | hw4/p2/src/hw4p2_shmem.c:129-137 | past its wait a process reads an object that its writer has sized and completely written |
| Shmem.CompleteWhenAll | hw4/p2/src/messages.c:70-76 | a reader that has copied part of an encoding stops exactly at its end, with the message |
| Shmem.OnlyUnlinkRemoves | hw4/p2/src/hw4p2_shmem.c:140-144 | names disappear only by an unlink call for that name |
| Shmem.UnlinkedOnlyWhenShared | hw4/p2/src/hw4p2_shmem.c:140-144 | no name is unlinked before both processes have opened it, and both hold the same object |
| Shmem.FaultIff | hw4/p2/src/hw4p2_shmem.c:108-129 | a step leaves mapped memory if and only if it writes past the page that a mailbox is mapped as |
| Shmem.BlockedIff | hw4/p2/src/hw4p2_shmem.c:131-136 | a process waits if and only if it is at its sem_wait and its partner has not posted |
| Shmem.StuckMeansFault | hw4/p2/src/hw4p2_shmem.c:84-225 | whatever the messages, until both are done some process can move or is at such a write |
| Shmem.NeverStuck | hw4/p2/src/hw4p2_shmem.c:84-225 | with messages that fit, some process can move until both are done |
| Shmem.StepCountsOne | hw4/p2/src/hw4p2_shmem.c:84-225 | a step takes its process one call or one byte further on the same message and does not touch the partner's variables |
| Shmem.StepCounts | hw4/p2/src/hw4p2_shmem.c:84-225 | every step uses up exactly one unit of a finite amount of work |
| Shmem.MeasureZero | hw4/p2/src/hw4p2_shmem.c:84-225 | the work is used up exactly when both are done |
| Shmem.AtTheEnd | hw4/p2/src/hw4p2_shmem.c:137-145 | with both done all four names are gone and each has decoded what the other encoded |
| Shmem.ExecInv | hw4/p2/src/hw4p2_shmem.c:84-225 | the invariant holds at every point of every interleaving |
| Shmem.NoFault | hw4/p2/src/hw4p2_shmem.c:84-225 | messages that fit never fault in any interleaving |
| Shmem.Finishes | hw4/p2/src/hw4p2_shmem.c:84-225 | every reachable state can be run to the end, in exactly the remaining number of steps |
| Shmem.FairFinishes | hw4/p2/src/hw4p2_shmem.c:84-225 | every schedule that gives both processes a turn as often as there is work finishes |
| Shmem.CompletesIffFits | hw4/p2/src/hw4p2_shmem.c:84-225 | an exchange can complete if and only if header and data of both messages fit the 4096-byte page |
| Shmem.InObjectIffFits | hw4/p2/src/hw4p2_shmem.c:93-137 | every access in every interleaving stays inside the 1024-byte objects if and only if header and data of both messages fit 1024 bytes |
| Shmem.Safety | hw4/p2/src/hw4p2_shmem.c:84-225 | at every point of every interleaving a name opened by both is one object, a name opened by one side is still there for the other, and nothing wrong has been decoded |
| Shmem.Delivery | hw4/p2/src/hw4p2_shmem.c:84-225 | every complete interleaving delivers both messages and leaves no name behind |
| Shmem.SessionDelivers | hw4/p2/src/hw4p2_shmem.c:140-144 | any number of exchanges, each started when both processes of the one before are done, deliver all their messages under any schedules |
| Overlap.ParentGone | hw4/p2/src/hw4p2_shmem.c:136-145 | when the parent has returned, no name is left and the child is at its unlinks or done |
| Overlap.LeftoverHappens | hw4/p2/src/hw4p2_shmem.c:51-57 | every exchange of messages that fit has a schedule in which the parent has returned and the child has made none of its unlinks |
| Overlap.GoneDelivers | hw4/p2/src/hw4p2_shmem.c:46-58 | with the previous child done, the next exchange can be completed from every point of every schedule, and is right when complete |
| Overlap.LeftoverBreaks | hw4/p2/src/hw4p2_shmem.c:221-225 | with the previous child anywhere before its last unlink, some schedule leaves the next parent waiting for ever on a semaphore that nobody else holds |
| Overlap.NextDeliversIffChildDone | hw4/p2/src/hw4p2_shmem.c:46-58 | a next exchange started when the previous parent has returned delivers under every schedule if and only if the previous child is done |
| Pipes.StreamMonotone | hw4/p2/src/hw4p2_pipes.c:105-106 | the bytes of fewer writes are a prefix of the bytes of more writes |
| Pipes.FrontChunk | hw4/p2/src/hw4p2_pipes.c:109-111 | a pipe that is not empty starts with the whole of the next chunk to be read |
| Pipes.NextWrite | hw4/p2/src/hw4p2_pipes.c:105-106 | each write is the next header or data of the message list and small enough to be atomic |
| Pipes.NextRead | hw4/p2/src/hw4p2_pipes.c:109-111 | each read asks for exactly the next chunk's length and finds all of it |
| Pipes.SendStep | hw4/p2/src/hw4p2_pipes.c:105-106 | a write keeps bytes read plus bytes in the pipe equal to bytes written |
| Pipes.ReceiveStep | hw4/p2/src/hw4p2_pipes.c:109-111 | so does a read, and after the data read the message has been rebuilt |
| Pipes.StepInv | hw4/p2/src/hw4p2_pipes.c:79-154 | every call of either process keeps the invariant of both pipes |
| Pipes.InOrder | hw4/p2/src/hw4p2_pipes.c:138-140 | at every point of every interleaving, for any scripts, a process has rebuilt exactly the first messages of the other, as many as it has received |
| Pipes.WholeChunks | hw4/p2/src/hw4p2_pipes.c:109-111 | in every interleaving a read that returns takes out exactly what one write put in |
| Pipes.NeverStuck | hw4/p2/src/hw4p2_pipes.c:79-154 | when every send meets a receive at the same place of the scripts, some process can move until both are done |
| Pipes.BlockedMeansPartnerAtWork | hw4/p2/src/hw4p2_pipes.c:109-111 | a process waits only for a partner that has calls left, so its read does not meet the end of the file |
| Pipes.WriteMeansPartnerAtWork | hw4/p2/src/hw4p2_pipes.c:105-106 | a process about to write at least one byte has a partner that has calls left, so its write does not meet a pipe without a reader |
| Pipes.StepCounts | hw4/p2/src/hw4p2_pipes.c:79-154 | every step uses up exactly one of the calls left |
| Pipes.Finishes | hw4/p2/src/hw4p2_pipes.c:79-154 | every reachable state can be run to the end in exactly the calls left |
| Pipes.FairFinishes | hw4/p2/src/hw4p2_pipes.c:79-154 | every schedule that gives both processes a turn as often as there are calls left finishes an agreed conversation |
| Pipes.Delivery | hw4/p2/src/hw4p2_pipes.c:103-153 | every complete interleaving delivers all messages in order, once each, and empties both pipes |
| Pipes.EveryRun | hw4/p2/src/hw4p2_pipes.c:103-153 | at every point of every run either everything is delivered or a call can be made |
| Pipes.PingPong | hw4/p2/src/hw4p2_pipes.c:103-153 | the program's own exchange: parent sends then receives, child receives then answers |
| Pipes.OneWay | hw4/p2/src/hw4p2_pipes.c:103-140 | a list of messages of any length, each payload at most 4096 bytes, is rebuilt and never gets stuck |
| Decimal.PadValue | hw3/src/logging.c:65 | a padded number reads back as the number |
| Decimal.PadDigit | hw3/src/logging.c:65 | the character j places from the right is the ASCII digit of weight 10^j |
| Decimal.DecDigit | hw4/p2/src/messages.c:26 | the same for unpadded numbers, which have no leading zero |
| Decimal.PadOrder | hw3/src/logging.c:65 | padded numbers of one width sort as text exactly as they sort as numbers |
| Stamp.FixedWidth | hw3/src/logging.c:65 | the stamp has 17 characters if and only if the seconds are below 10^7 |
| Stamp.Layout | hw3/src/logging.c:65 | the stamp character by character: seven digits of seconds, a dot, nine digits of nanoseconds, weights written out |
| Stamp.ReadBack | hw3/src/logging.c:65 | the time of any record can be read back from it |
| Stamp.OrderPreserving | hw3/src/logging.c:65 | stamps of one width are in text order exactly when the times are in time order |
| Stamp.OrderInRange | hw3/src/logging.c:65 | below 10^7 seconds text order is time order |
| Stamp.OrderBreaksPastRange | hw3/src/logging.c:65 | at 10^7 seconds text order is wrong |
| Stamp.SortableIff | hw3/src/logging.c:65 | all stamps below a limit of seconds sort as text the way they sort in time if and only if the limit is at most 10^7 |
| LogStream.Stream.Print | hw3/src/logging.c:65-67 | a formatted write adds its text to file and buffer together, however much is flushed early |
| LogStream.LogVarg | hw3/src/logging.c:56-71 | a whole call adds exactly one record to the file: the clock reading to the nanosecond, the name in brackets, the message; the stream is left empty and the mutex free |
| Logger.LocalStep | hw3/src/logging.c:63-70 | inside the critical section file and buffer together grow by exactly what is written |
| Logger.FileStep | hw3/src/logging.c:56-71 | every step of any thread keeps the file equal to its former contents, the complete records and the holder's part |
| Logger.TimeStep | hw3/src/logging.c:58-70 | every step keeps the order facts between calls, clock readings and records |
| Logger.RunInv | hw3/src/logging.c:56-71 | both hold at every point of every run |
| Logger.FileShape | hw3/src/logging.c:56-71 | in every run, from any file contents: those contents, then complete records, then at most a prefix of the holder's; with the mutex free all buffers are empty |
| Logger.MadeRun | hw3/src/logging.c:56-71 | along any run a thread's finished and pending calls grow by exactly the calls of the schedule, their times by exactly the clock readings |
| Logger.ExactlyOnce | hw3/src/logging.c:56-71 | a thread's records, with its pending call, are exactly the calls the schedule makes for it: once each, in order, with its name, their texts and the times it read |
| Logger.LockOrder | hw3/src/logging.c:63-70 | the records, with the one being written, are in the order in which the schedule takes the mutex |
| Logger.EntriesAreCalls | hw3/src/logging.c:56-71 | a record's start and end are the places in the schedule where its thread makes the call with its text and where it unlocks |
| Logger.RealTimeOrder | hw3/src/logging.c:58-70 | a call that returned before another started comes first and has no later stamp |
| Logger.ThreadOrder | hw3/src/logging.c:58-70 | the records of one thread are in stamp order |
| Logger.OutOfOrderMeansOverlap | hw3/src/logging.c:58-63 | a stamp earlier than the one before it means two threads whose calls overlapped |
| Logger.StampsCanSwap | hw3/src/logging.c:58-63 | from any start any two threads have a run in which overlapping calls leave the later stamp first |
| Logger.StampOrderIffOneThread | hw3/src/logging.c:58-63 | every run leaves its records in stamp order if and only if there is at most one thread |
| Logger.HolderFinishes | hw3/src/logging.c:63-70 | whoever holds the mutex can complete its record and free it, with no help from others |
| Logger.NeverStuck | hw3/src/logging.c:56-71 | while any thread is in a call some thread can move on in its call |
| Logger.ForwardRank | hw3/src/logging.c:58-70 | a step that moves a thread on brings its call closer to the end |
| Logger.RecordIsLine | hw3/src/logging.c:65-67 | a one-line message makes a one-line record from which the clock reading is read back to the nanosecond |
| Logger.RecordReads | hw3/src/logging.c:65-67 | a record is the stamp of the clock reading, the name in brackets and the message |
| Logger.StampsCompare | hw3/src/logging.c:65 | below 10^16 ns the first 17 characters of two records compare as text exactly as their clock readings do |
| Logger.FileLines | hw3/src/logging.c:56-71 | with one-line messages the lines of the file are those it had and then exactly the records, in lock order |
| Logger.RecordUnambiguous | hw3/src/logging.c:65-67 | a record determines its time, thread name and message |
| Logger.FileTellsHistory | hw3/src/logging.c:56-71 | runs that take equal files to equal files made the same records in the same order |
| Lifecycle.LoggingLife | hw3/src/threads.c:48-85 | steps inside a log call keep what is known of a thread's handle and closing message; only the main thread can be writing with a closed handle |
| Lifecycle.StartExists | hw3/src/hw3.c:40-52 | a start exists for any number of workers, any log file contents and any time, so the results about starts and runs are about something |
| Lifecycle.RunRefines | hw3/src/hw3.c:40-80 | every run of the program is a run of the logger that makes the same calls |
| Lifecycle.RecordsAreCalls | hw3/src/hw3.c:40-80 | each thread's records, with its pending call, are word for word the messages that its actions in the schedule log |
| Lifecycle.ProgramOrder | hw3/src/threads.c:48-85 | signals apart, a thread's messages at every point of every run are the two start-up messages, messages of its body, for main the announcement of the joins, at most one about the timer and the closing one: once each, in this order, as far as it has come |
| Lifecycle.MainMessages | hw3/src/hw3.c:51-77 | a finished main thread has logged the start-up messages first, then its body, the announcement of the joins, and the closing message last |
| Lifecycle.HandleOnce | hw3/src/threads.c:59-84 | in every run each thread opens its handle at most once and closes it at most once, after opening it; a finished main thread has done both |
| Lifecycle.CloseInv | hw3/src/threads.c:82-84 | closing keeps the invariant and writes nothing, since nothing is left in the buffer |
| Lifecycle.StepInv | hw3/src/hw3.c:40-80 | every step of main, of any worker and of the logger keeps the invariant |
| Lifecycle.RunInv | hw3/src/hw3.c:40-80 | it holds at every point of every run |
| Lifecycle.ClosingRecord | hw3/src/threads.c:68-85 | a thread closes its handle at most once; its closing message is among its records, followed by exactly the signals it caught after it, of which a worker has none; likewise after its fclose; without a handle there are no records |
| Lifecycle.ClosingIsLast | hw3/src/threads.c:82-84 | with its handle closed and no call pending, a thread's closing message is its last record if and only if it caught no signal after it; a worker never does |
| Lifecycle.NoWriteAfterClose | hw3/src/threads.c:82-84 | characters reach the file through a thread's stream only while its handle is open, or when the main thread has caught a signal after its fclose |
| Lifecycle.SignalSpoilsClosing | hw3/src/hw3.c:88-106 | every start has a complete run in which a signal makes the main thread log after its closing message and through its closed handle |
| Lifecycle.JoinedIsAfterWorkers | hw3/src/hw3.c:70-74 | every record of every worker comes before the joined message, with no later stamp, and all workers have terminated |
| Lifecycle.JoinedIsLogged | hw3/src/hw3.c:70-77 | when main has finished, the joined message is in the log, after every worker record |
| Lifecycle.MainFinishesLast | hw3/src/hw3.c:70-79 | when main has finished every worker has, and main has closed its handle once |
| Lifecycle.NeverStuck | hw3/src/hw3.c:61-77 | until main has finished some thread can make a step towards the end |
| Lifecycle.ForwardCounts | hw3/src/hw3.c:61-77 | every step towards the end, by any thread, uses up part of a finite amount of work |
| Lifecycle.CompleteRunExists | hw3/src/hw3.c:40-79 | for any number of workers there is a start and a run from it to the end of the program |
| Lifecycle.ForwardRunsEnd | hw3/src/hw3.c:61-79 | however steps towards the end are scheduled, they stop within the remaining work, and only when main has terminated |
| Lifecycle.Finishes | hw3/src/hw3.c:61-79 | from every reachable point the program can be run to its end within that much work |

## Left out

- Shmem.CompletesIffFits: assumes 4096-byte pages whose tail beyond the object's size both processes share.
- Lifecycle.ClosingIsLast: signals arrive only outside log_varg, and workers leave only there and not between registering with pthread_setspecific and opening the handle; a signal or cancellation there could leave the mutex held or close a handle that was never opened.
- Lifecycle.ForwardRunsEnd: speaks of steps towards the end only; a worker whose body logs for ever is not excluded.
- Pipes.OneWay: payloads above PIPE_BUF bytes, which the kernel may write in several parts, so that one read can come back short.
- LinkedList.DeleteFromPosition: the only node of a list is not removed, because the code does not remove it.
- Codec.MsgToStr: a string message without a NUL in its data, for which sprintf reads beyond the message.
- The two processes of `Shmem` and `Pipes` and the threads of `Logger` and `Lifecycle` are values in a transition system rather than objects; what that does not show is aliasing between their variables, of which the programs have none.
- Failing calls: malloc, sem_open, shm_open on a name of another user, mmap, pthread_create; names left by an earlier run that crashed.
- The numbers inside the start-up and closing messages (descriptors, thread ids, times): they are arbitrary text in the model.
- Signals: `signal_handler` logs one message of arbitrary text; that a worker then exits, and that the main thread then cancels the workers, is possible in the model but not forced. A signal before a thread has its handler and its thread-local data, or in a worker's destructor, ends the process and is not modelled.
- Lifecycle.SignalSpoilsClosing: what fprintf does with a closed stream is undefined; in the model the text reaches the file.
- `LIST_CONTAINER`: address arithmetic is a field from node to record; `DESTROY`, the declared but undefined `destroy` and the unused `NODE_INIT` are not modelled.
- `hw4/p2/src/hw4p2_mqueues.c`: its child retries by opening its own queue, so delivery does not hold in every run.
- `hw4/p2/src/hw4p2_sockets.c`: datagram plumbing; its buffer size and buffer reuse are covered by the codec.
- `hw3/src/metrics.c`: timers and getrusage, with little logic of its own.
- Kernel modules and system calls (`hw2/p2` to `hw2/p5`, `hw4/p3`, `hw4/p4`): their behaviour sits in kernel code that is not in the repository.
