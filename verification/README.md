# lwIP 1.4.1: verified models of its allocators, socket layer, DNS resolver and DHCP options

Dafny models of six components of the lwIP copy in this repository, with proofs of what they promise.
`dafny verify dfyconfig.toml` checks everything. Sizes and counts (heap size, number of pools, sockets,
table entries, servers, retries) are parameters; what the rest of the system does (TCP functions, other
threads, timers, arriving messages) comes in as arguments or as steps of a run.

- **Heap** (`HeapLayout`, `HeapLaws`, `HeapCalls`, `Heap`, `HeapInterrupt`, `HeapHeld`, `HeapProgress`).
  `HeapLayout` says what a chain of block headers stands for and what mem_malloc, mem_free and mem_trim do
  to it; `HeapLaws` proves what every sequence of calls keeps, and that a well-formed chain is determined by
  the memory in use; `HeapCalls` says what each call does to that. `Heap.RamHeap` is the allocator itself,
  working on the bytes of `ram`, with 16-bit header fields inside the bytes. `HeapInterrupt` is the build in
  which frees and trims slip into the search of mem_malloc, `HeapHeld` what other contexts keep meanwhile,
  and `HeapProgress` proves when that search ends.
- **Socket layer** (`Select`, `SelectAnswer`, `SelectProgress`, `SelectList`, `Accept`, `Receive`).
  lwip_select and event_callback, and lwip_accept and event_callback, as steps between the points where
  interrupts are protected, with what they answer and that they end; the linked list of waiting selects; the
  receive loop of lwip_recvfrom with do_recv.
- **Netconn** (`Netconn`, `NetconnAnswer`, `NetconnObject`). The handlers and TCP callbacks of api_msg.c as
  functions on values, with the answer to each call, and as methods that update the netconn and its pending
  message in place.
- **DNS** (`DnsNames`, `DnsTable`, `DnsAnswers`, `DnsEviction`, `DnsMessage`, `DnsResolver`). Name encoder,
  skipper and comparer; the table of timed queries as functions with laws over runs; what callbacks are
  told; queries and replies as bytes; the functions of dns.c as methods on the table.
- **DHCP options** (`DhcpOptions`, `DhcpTags`, `DhcpChain`, `DhcpOverload`, `DhcpReply`, `DhcpLaws`,
  `DhcpWriter`). One pass over flat bytes, field by field, as the reference; the options by their numbers;
  the parser that walks a chain of pbufs; the writer, read back by the parser.
- **Pools** (`PoolCycle`, `Pool`). Free lists in one block, and the two-walker cycle check.
- Shared: `Octets` (C integers), `Err` (the codes of err_t), `Counting` (products and counts of steps),
  `Lists`.

Where a promise does not hold as stated, the code is modelled as it is, and a lemma says exactly when it
does hold. An input for which it does not is named there, or by a lemma of its own:

- Request sizes above 65532 wrap in 16 bits (`HeapLaws.RoundedCovers`).
- mem_malloc ends exactly if only finitely many gaps hold a mem_trim without effect
  (`HeapProgress.EndsExactlyWhen`); every held block with spare room and no free block behind can be trimmed
  so (`HeapProgress.CanBeTrimmedIdly`) and then starves every search (`HeapProgress.IdleTrimsStarve`;
  `HeapProgress.TrimsCanStarve` is one heap of 100 bytes).
- A netconn can be deleted without losing a completion, whatever TCP does, exactly if it is not connecting
  (`Netconn.DeleteIsSafeExactlyWhen`; `Netconn.RunThatLoses` is a run that loses one).
- A RCVMINUS that comes before the socket is installed is ignored, although the comment in event_callback
  says "count down (or up)" (`Accept.ConservedExactlyWhen`; `Accept.RunThatIgnores` is such a run). This
  input does not occur in this code: RCVMINUS is posted only by netconn_recv_data and netconn_accept
  (src/lwip/src/api/api_lib.c:307, 396 and 418), called by an application that already holds the socket, so
  `Accept.HandOverConserves` is the law that applies.
- A DNS time to live of 0 underflows (`DnsTable.ServedFor`).
- The age comparison of dns_enqueue fails once the sequence number has wrapped: the oldest entry is evicted
  for the first 256 queries (`DnsEviction.OldestIsEvicted`), which queries are refused is
  `DnsEviction.RefusedExactlyWhen`, and which evictions after a wrap still take the oldest is
  `DnsEviction.FirstIsEvictedExactlyWhen`. After 256 queries a run refuses one although a completed entry
  could be evicted (`DnsEviction.RunThatRefuses`), and after 257 one evicts the younger of two
  (`DnsEviction.RunThatEvictsTheYounger`).
- dns_gethostbyname lets host names of 255 characters pass; what dns_send allocates holds the query exactly
  up to 254 (`DnsMessage.QueryFits`).
- dns_compare_name does not look at separators or at the end (`DnsNames.AcceptedExactly`,
  `DnsNames.OtherShapesAccepted`).
- Overload options inside overloaded DHCP fields can make the parser circle
  (`DhcpLaws.EndsExactlyWhen`; `DhcpLaws.CircularMessageNeverEnds` is a message of 244 bytes,
  whatever the part of it that dhcp_recv checks before).
- Taking the close marker from the receive mailbox credits one byte that is not data
  (`Receive.StreamSocket.CreditIsExactWhen`; `Receive.CloseIsCredited` does it).

Assumptions: sizes as configured (alignment 4, header 8, minimum block 12); options of opt.h at their
defaults where the repository leaves them, in particular no core locking; DNS callbacks do not call the
resolver; one application thread per netconn; the change counter of the select list does not wrap.
DNS_MAX_RETRIES is a parameter (its default in dns.c is 4).

## Model

| member | source | states |
|---|---|---|
| HeapLaws.RunKeepsWellFormed | src/lwip/src/core/mem.c:236-634 | every sequence of malloc, free and trim calls on a well-formed heap keeps it tiled from 0 to the end by aligned blocks, with no two neighbouring free blocks |
| HeapLaws.InitialIsWellFormed | src/lwip/src/core/mem.c:274-303 | mem_init establishes that, with everything free |
| HeapLaws.LivePayloadsDisjoint | src/lwip/src/core/mem.c:565-623 | any two payloads in use are disjoint and inside the heap |
| HeapLaws.MallocGrants | src/lwip/src/core/mem.c:494-623 | a successful mem_malloc hands out an aligned payload inside the heap, clear of every live payload, at least as long as requested exactly if the request is at most 65532 |
| HeapLaws.RoundedCovers | src/lwip/src/core/mem.c:507-519 | the rounded size is aligned, at least the minimum block, and covers the request if and only if it is at most 65532, by less than the alignment; small requests get the minimum block, and so do larger ones, which wrap in 16 bits |
| HeapLaws.TrimLaws | src/lwip/src/core/mem.c:369-483 | mem_trim keeps the heap well formed and the first bytes in use, and either gives back all the rest or keeps less than a header and a minimum block of surplus |
| HeapLaws.ReleaseLaws | src/lwip/src/core/mem.c:236-357 | mem_free with coalescing on both sides takes exactly the freed extent out of use and keeps the heap well formed |
| HeapLaws.DeterminedByUse | src/lwip/src/core/mem.c:236-269 | two well-formed heaps with the same memory in use are the same chain of headers: coalescing leaves no choice |
| HeapLaws.FreeingAllRestoresInitial | src/lwip/src/core/mem.c:311-357 | freeing all live blocks in any order gives back the single free block of mem_init |
| HeapLaws.FreeUndoesMalloc | src/lwip/src/core/mem.c:565-611 | mem_free straight after a successful mem_malloc restores the chain exactly |
| HeapCalls.MallocEffect | src/lwip/src/core/mem.c:494-634 | mem_malloc changes nothing exactly if the request is empty, larger than the heap, or larger than every free block; else it gives out one extent of the rounded size in the first free block that has room |
| HeapCalls.FreeEffect | src/lwip/src/core/mem.c:311-357 | mem_free takes exactly the block's extent out of use |
| HeapCalls.ShrinkEffect | src/lwip/src/core/mem.c:369-483 | mem_trim below the size of a block cuts its extent to exactly the rounded size, unless a used block or the end follows and the surplus is too small for a block; in all other cases it changes nothing |
| HeapCalls.InterruptIsCall | src/lwip/src/core/mem.c:311-483 | a call that interrupts mem_malloc does what it always does, and raises mem_free_count exactly if it is a mem_free or a mem_trim below the size of the block |
| Heap.RamHeap.constructor | src/lwip/src/core/mem.c:274-303 | mem_init on bytes: one free block, the end marker, and lfree at the start |
| Heap.RamHeap.Malloc | src/lwip/src/core/mem.c:494-634 | the in-place mem_malloc has the effect of plain first fit on the chain, keeps every byte of live payloads, and counts errors only when no free block has room |
| Heap.RamHeap.Search | src/lwip/src/core/mem.c:530-546 | the scan from lfree with the early bound picks the block of plain first fit over all blocks, and fails exactly when no free block has room |
| Heap.RamHeap.AdjustLowest | src/lwip/src/core/mem.c:590-612 | lfree moves on to the lowest free block or the end |
| Heap.RamHeap.Free | src/lwip/src/core/mem.c:311-357 | the in-place mem_free has the effect of releasing the block on the chain; lfree and the used statistic follow, no other live byte changes |
| Heap.RamHeap.PlugHoles | src/lwip/src/core/mem.c:236-269 | plug_holes joins the freed block with a free block behind and a free block in front, and keeps lfree the lowest free block |
| Heap.RamHeap.Trim | src/lwip/src/core/mem.c:369-483 | the in-place mem_trim, with all its return values, has the effect of shrinking on the chain and keeps the bytes kept |
| Heap.RamHeap.Store | src/lwip/src/core/mem.c:494-623 | a caller writing to memory it holds disturbs neither the chain nor the bytes of other callers |
| HeapInterrupt.SafeUnderInterrupts | src/lwip/src/core/mem.c:523-634 | with frees and trims of live blocks at every unprotect point, the chain stays well formed, the block returned was free and large enough when marked, lfree is the lowest free block at the end, and NULL means that no free block then fits |
| HeapHeld.KeepsExtent | src/lwip/src/core/mem.c:523-634 | under every plan of interrupting frees and trims, at every gap, a block in use that no call named since mem_malloc began has the extent it had |
| HeapHeld.KeepsBytes | src/lwip/src/core/mem.c:523-634 | a byte of a block in use stays in that block and in no other, the one being handed out included, until a call frees the block or trims it to below that byte |
| HeapProgress.EndsUnderFrees | src/lwip/src/core/mem.c:533-611 | when only mem_free interrupts, mem_malloc ends within a bound fixed at its start: every restart is paid for by a freed block |
| HeapProgress.GapsArePaidFor | src/lwip/src/core/mem.c:523-634 | under every plan of interrupting frees and trims, the gaps of an unfinished mem_malloc are bounded by a rank over the bytes other contexts hold at the start, plus one pass for each gap that raises mem_free_count without changing the chain |
| HeapProgress.EndsWithoutIdleGaps | src/lwip/src/core/mem.c:533-611 | so frees, and trims that have an effect, always let mem_malloc end within a bound fixed at its start |
| HeapProgress.EndsExactlyWhen | src/lwip/src/core/mem.c:533-611 | for every plan, mem_malloc ends if and only if its idle gaps are finitely many |
| HeapProgress.IdleGapHasIdleTrim | src/lwip/src/core/mem.c:418-475 | an idle gap always holds a mem_trim that leaves the chain as it was; a mem_free never is idle |
| HeapProgress.CanBeTrimmedIdly | src/lwip/src/core/mem.c:418-475 | a held block can be trimmed without effect if and only if it has more than the minimum room and no free block behind it |
| HeapProgress.IdleTrimsStarve | src/lwip/src/core/mem.c:533-611 | every such block, in every well-formed heap, starves every mem_malloc that has to search: repeating one mem_trim in each gap keeps it from ever ending |
| HeapProgress.TrimsCanStarve | src/lwip/src/core/mem.c:533-611 | a concrete heap of 100 bytes, request and trim for which that happens |
| HeapInterrupt.TakesFirstFit | src/lwip/src/core/mem.c:557-611 | the last uninterrupted step of the search takes the block of first fit on the heap as it is then |
| Select.NoLostWakeup | src/lwip/src/api/sockets.c:1136-1210 | in every interleaving of any number of selects and callbacks, once no callback is under way a select that waits unsignalled watches no socket with an event it asked for |
| Select.WalkStaysOnList | src/lwip/src/api/sockets.c:1309-1359 | the list walk that drops the lock at every entry goes on only from an entry still linked, and no semaphore is signalled twice |
| Select.StepKeeps | src/lwip/src/api/sockets.c:1088-1225 | every critical section keeps list membership, the waiting counts of sockets and the promise that a pending callback covers every missed event |
| SelectAnswer.AnswerIsLastScan | src/lwip/src/api/sockets.c:1025-1082 | in every run, the sets a finished call returns are exactly the sockets it asked for that had the event when its last scan looked at them, and nready is their number |
| SelectAnswer.ScansAreWhole | src/lwip/src/api/sockets.c:1098-1225 | a finished call made one to three scans over all its sockets, and was in the list during the second only |
| SelectAnswer.WhyReturned | src/lwip/src/api/sockets.c:1098-1225 | after one scan a call returned with events or as a poll, and was never linked; after two because neither saw anything and the wait timed out; after three because the first saw nothing and the second did, or a callback ended the wait |
| SelectAnswer.WhyWaiting | src/lwip/src/api/sockets.c:1157-1182 | a call waits only in the list, after two scans that saw nothing, and never if it polls |
| SelectAnswer.WhyFailed | src/lwip/src/api/sockets.c:1114-1134 | a call fails only for want of a semaphore, unlinked, after a first scan that saw nothing |
| SelectProgress.CallEnds | src/lwip/src/api/sockets.c:1088-1225 | a call is over after at most 9 * (maxfdp1 + 2) of its own steps, not counting those in which it waits unsignalled |
| SelectProgress.CallbackEnds | src/lwip/src/api/sockets.c:1309-1359 | a callback ends after at most one look per entry and two more, once the list stays as it is |
| SelectProgress.SignalledForCause | src/lwip/src/api/sockets.c:1320-1345 | a call is signalled only by a callback that found it in the list while its socket had an event the call asked for |
| SelectProgress.EventsAreCounted | src/lwip/src/api/sockets.c:1258-1305 | in every run rcvevent is RCVPLUS minus RCVMINUS in 16 bits, sendevent what was posted last, and errevent set exactly after an error |
| SelectList.CbList.Link | src/lwip/src/api/sockets.c:1136-1149 | putting an entry on top of the doubly linked list and counting the change |
| SelectList.CbList.Unlink | src/lwip/src/api/sockets.c:1196-1210 | taking an entry off the doubly linked list leaves the others in order, linked both ways |
| SelectList.Selscan | src/lwip/src/api/sockets.c:1025-1082 | the result sets are exactly the requested sockets with events, and nready counts them |
| Accept.HandOver | src/lwip/src/api/sockets.c:386-394 | once the new socket is installed and no callback is under way, its rcvevent is RCVPLUS minus RCVMINUS since the netconn was allocated, save RCVMINUS that found no socket; no other connection has the socket |
| Accept.HandOverConserves | src/lwip/src/api/sockets.c:249-267 | if RCVMINUS comes only after accept returned, no receive event is lost or counted twice |
| Accept.ConservedExactlyWhen | src/lwip/src/api/sockets.c:1258-1294 | otherwise the counter is right if and only if the number of RCVMINUS ignored in the countdown phase is a multiple of its range |
| Accept.RunThatIgnores | src/lwip/src/api/sockets.c:1258-1294 | a run in which one RCVMINUS posted in the countdown phase is lost, so that the installed counter is wrong |
| Accept.EveryEventAccounted | src/lwip/src/api/sockets.c:1246-1307 | at every point of every run each event posted was counted once or is in a callback under way |
| Accept.AcceptEnds | src/lwip/src/api/sockets.c:236-270 | lwip_accept returns a socket or fails after at most one step per slot and five more, and fails only if every slot is in use |
| Receive.StreamSocket.Recvfrom | src/lwip/src/api/sockets.c:556-738 | whatever other threads do meanwhile: what is returned is what comes next of the data taken; with room, a call returns data if and only if some is left over or it may fetch and the oldest item is data; it ends at the end of the buffer, behind a push, when nothing more is ready, on a fatal error, a close, or an empty mailbox, and never goes on behind one of these; -1 only with nothing copied |
| Receive.StreamSocket.StreamIsIntact | src/lwip/src/api/sockets.c:556-738 | bytes returned so far, the rest of lastdata and the mailbox are together everything posted, in order |
| Receive.StreamSocket.Gather | src/lwip/src/api/sockets.c:575-732 | the receive loop: consecutive bytes, every reason to stop and no other, and it ends |
| Receive.StreamSocket.RecvData | src/lwip/src/api/api_lib.c:341-426 | a fatal error is reported and nothing taken; else the oldest item is taken, data handed out as it is and a close reported, credited with one byte; it times out exactly if nothing was there and nothing came |
| Receive.StreamSocket.Finish | src/lwip/src/api/sockets.c:733-738 | window credit passed down equals the data bytes returned |
| Receive.StreamSocket.DoRecv | src/lwip/src/api/api_msg.c:1172-1192 | pieces of at most 0xffff add up to the credit asked for, and none is given without a pcb |
| Receive.StreamSocket.Arrive | src/lwip/src/api/api_msg.c:215-257 | what recv_tcp posts is appended to the stream, at any point of a call |
| Receive.StreamSocket.CreditIsExactWhen | src/lwip/src/api/api_lib.c:379-401 | with a pcb the window credit is the data returned plus one byte for each close taken, so it is exact if and only if every close posted is still in the mailbox |
| Receive.CloseIsCredited | src/lwip/src/api/api_lib.c:379-401 | a close posted and taken credits one byte while nothing is returned |
| Netconn.OneCompletionPerCall | src/lwip/src/api/api_msg.c:346-404 | every API message is completed exactly once, in the order issued, or is the current message; the current message is set exactly in WRITE, CLOSE and blocking CONNECT |
| Netconn.PendingIsCompleted | src/lwip/src/api/api_msg.c:936-974 | the later completions: an error of the pcb, do_connected with or without error, a successful close, and progress of a write that is given room |
| Netconn.WriteEndsInTime | src/lwip/src/api/api_msg.c:1207-1333 | in every run, a blocking write is completed at the latest when tcp_write has taken bytes as often as there were bytes left, whatever else happens in between |
| Netconn.WriteProgressLaws | src/lwip/src/api/api_msg.c:1207-1333 | each write attempt appends the next bytes of the data, as many as the data left, 16 bits and the send buffer allow, and ends the call only with a truthful report; every other answer of TCP has its result |
| Netconn.EveryWriteIsFaithful | src/lwip/src/api/api_msg.c:1207-1375 | over every run: while a write is under way tcp_write has taken exactly the data up to write_offset, and the report that ends it matches what was taken |
| Netconn.WriteReportedTruthfully | src/lwip/src/api/api_msg.c:1342-1375 | the report, case by case: a blocking write reporting ERR_OK delivered every byte once in order with the MORE flag on all chunks but the last; a non-blocking one delivered exactly the prefix it reports |
| Netconn.StepKeeps | src/lwip/src/api/api_msg.c:746-888 | every handler and callback keeps the netconn invariant, save a delete during a pending non-blocking connect whose close does not succeed at once |
| Netconn.DeleteCanLoseCompletion | src/lwip/src/api/api_msg.c:831-888 | the invariant fails exactly in that case, and an error of the pcb then loses the completion |
| Netconn.DeleteIsSafeExactlyWhen | src/lwip/src/api/api_msg.c:831-888 | over all results of TCP and all errors of the pcb: a delete followed by an error never loses the completion if and only if the netconn is not connecting |
| Netconn.RunThatLoses | src/lwip/src/api/api_msg.c:831-888 | a run of three steps from a new netconn to a lost completion: connect, delete while tcp_close is out of memory, error |
| Netconn.LostForEver | src/lwip/src/api/api_msg.c:386-404 | nothing that can happen afterwards completes the call |
| NetconnAnswer.ChunksFill | src/lwip/src/api/api_msg.c:1241-1268 | in every run, each chunk of a write is as long as the data then left, 16 bits and the send buffer of its step allow |
| NetconnAnswer.NonblockingReportFills | src/lwip/src/api/api_msg.c:1242-1304 | a non-blocking write reported done reports that minimum; it would block only without room |
| NetconnAnswer.ConnectAnswers | src/lwip/src/api/api_msg.c:983-1032 | which error a connect is refused with, when it is told to be in progress, and when it waits |
| NetconnAnswer.ConnectEnds | src/lwip/src/api/api_msg.c:936-974 | a blocking connect is answered with what TCP says; a non-blocking one clears an earlier error that is not fatal |
| NetconnAnswer.WriteAnswers | src/lwip/src/api/api_msg.c:1342-1390 | which error a write is refused with; otherwise it is worked on |
| NetconnAnswer.ShutdownAnswers | src/lwip/src/api/api_msg.c:1450-1482 | which error a shutdown is refused with, and when it waits; a half one keeps the pcb, a whole one drops it |
| NetconnAnswer.DeleteAnswers | src/lwip/src/api/api_msg.c:831-888 | a delete is refused only while a write or close is under way |
| NetconnAnswer.ListenAnswers | src/lwip/src/api/api_msg.c:1063-1111 | which error a listen is refused with; otherwise what tcp_listen answers |
| NetconnAnswer.CloseAnswers | src/lwip/src/api/api_msg.c:746-822 | a close that succeeds later: a half shutdown keeps the pcb, a whole one or a delete drops it, and until then nothing changes |
| NetconnAnswer.ErrorsAreRemembered | src/lwip/src/api/api_msg.c:346-404 | a fatal error of the pcb answers every later write and listen |
| NetconnObject.NetconnStruct.DoWriteMore | src/lwip/src/api/api_msg.c:1207-1333 | do_writemore in place, with the message length it reports and the signal it gives |
| NetconnObject.NetconnStruct.PickLength | src/lwip/src/api/api_msg.c:1242-1268 | the chunk offered fits the data left, 16 bits and the send buffer, and fills one of them; a non-blocking write without room would block; MORE is set for a clipped blocking chunk |
| NetconnObject.NetconnStruct.DoWrite | src/lwip/src/api/api_msg.c:1342-1390 | do_write in place, error cases included |
| NetconnObject.NetconnStruct.DoCloseInternal | src/lwip/src/api/api_msg.c:746-822 | do_close_internal in place |
| NetconnObject.NetconnStruct.DoClose | src/lwip/src/api/api_msg.c:1450-1482 | do_close in place, error cases included |
| NetconnObject.NetconnStruct.DoDelConn | src/lwip/src/api/api_msg.c:831-888 | do_delconn in place |
| NetconnObject.NetconnStruct.DoConnect | src/lwip/src/api/api_msg.c:983-1032 | do_connect in place, blocking and non-blocking |
| NetconnObject.NetconnStruct.DoConnected | src/lwip/src/api/api_msg.c:936-974 | do_connected in place |
| NetconnObject.NetconnStruct.DoListen | src/lwip/src/api/api_msg.c:1063-1111 | do_listen in place |
| NetconnObject.NetconnStruct.SentOrPolled | src/lwip/src/api/api_msg.c:276-324 | sent_tcp and poll_tcp resume a write or a close |
| NetconnObject.NetconnStruct.ErrTcp | src/lwip/src/api/api_msg.c:346-404 | err_tcp in place: the pending call fails with the error of the pcb |
| DnsNames.RoundTrip | src/lwip/src/core/dns.c:492-548 | for names of non-empty labels below 192 bytes and at most 254 in all: length + 2 bytes, skipped exactly, accepted, and of all names with the same label lengths no other is accepted |
| DnsNames.EncodeName | src/lwip/src/core/dns.c:586-602 | the encoder writes the labels of the dotted name, each with its length, and a zero |
| DnsNames.ParseName | src/lwip/src/core/dns.c:527-548 | the skipper stops right behind the name, also behind a compression pointer |
| DnsNames.CompareName | src/lwip/src/core/dns.c:492-517 | the comparer returns 0 exactly when each label of the response is found at its place in the stored text |
| DnsNames.AcceptedExactly | src/lwip/src/core/dns.c:497-514 | that is: when the stored text begins with the labels joined by arbitrary characters |
| DnsNames.OtherShapesAccepted | src/lwip/src/core/dns.c:513-516 | so a response for a.b answers a query for axb, and one for a answers a query for a.b |
| DnsNames.SplitDotted | src/lwip/src/core/dns.c:590-602 | splitting a dotted name gives back its labels |
| DnsTable.OneCallbackPerQuery | src/lwip/src/core/dns.c:768-843 | at every point of every run, each query taken waits in exactly one entry or was notified exactly once |
| DnsTable.CalledInTime | src/lwip/src/core/dns.c:635-712 | a query is notified within DNS_MAX_SERVERS * (1 + R(R-1)/2) ticks, whatever queries and replies come |
| DnsTable.CheckedLeft | src/lwip/src/core/dns.c:661-692 | each tick brings a waiting entry one tick nearer to its time-out, over retries and changes of server |
| DnsTable.LookupIsFresh | src/lwip/src/core/dns.c:468-478 | with replies of TTL at least 1, an address found was carried by an accepted reply to a query for exactly that name fewer than min(TTL, DNS_MAX_TTL) ticks ago |
| DnsTable.ServedFor | src/lwip/src/core/dns.c:695-703 | left alone an address is served for exactly min(TTL, DNS_MAX_TTL) ticks, and for 2^32 ticks if the TTL is 0 |
| DnsTable.DoneStep | src/lwip/src/core/dns.c:797-820 | an entry becomes a cached address only by the reply to its own query, and keeps name and address until it expires |
| DnsAnswers.ReplyDecides | src/lwip/src/core/dns.c:757-843 | a reply to a waiting query completes it with its first address, for the TTL but at most a week, if and only if it is good, answers the name and carries an address, and ends it otherwise; the callback gets that address or the failure |
| DnsAnswers.CallbacksAreTold | src/lwip/src/core/dns.c:635-843 | every callback of every run is called in the step that ends its query: with the address its entry is completed with, which the accepted reply carried first, or with a failure if the entry is given up |
| DnsAnswers.AddressesAreForTheName | src/lwip/src/core/dns.c:768-914 | a callback is told an address only from a reply accepted for the name of its own query |
| DnsAnswers.WaitsForItsName | src/lwip/src/core/dns.c:859-914 | a waiting entry has the name and the callback of the query that took it |
| DnsAnswers.FailsInTime | src/lwip/src/core/dns.c:661-692 | a query times out exactly when each server it can be sent to had 1 + 1 + 2 + ... + (R-1) ticks |
| DnsAnswers.ServersAreConfigured | src/lwip/src/core/dns.c:666-680 | these are the first server and those behind it up to the first without an address |
| DnsEviction.RefusedExactlyWhen | src/lwip/src/core/dns.c:867-899 | a query is refused exactly if no entry is unused, no completed entry looks older than the sequence number, and entry 0 is not completed |
| DnsEviction.OldestIsEvicted | src/lwip/src/core/dns.c:867-902 | in every run, while the queries taken do not wrap the 8-bit sequence number (fewer than 256 from a fresh start), only a full table of waiting queries refuses, and the completed entry evicted is the oldest |
| DnsEviction.NumbersRun | src/lwip/src/core/dns.c:902-902 | up to then the sequence number counts the queries taken, and every entry in use has a smaller one |
| DnsEviction.FirstIsEvictedExactlyWhen | src/lwip/src/core/dns.c:867-902 | in every run, wrapping or not, with the true number of each query beside its 8-bit one: the completed entry evicted is the one whose query was taken first if and only if no other was numbered before an earlier wrap and, if none looks older than the sequence number, entry 0 has the lowest number of its wrap |
| DnsEviction.NumbersWrap | src/lwip/src/core/dns.c:902-902 | in every run the sequence numbers are the true numbers modulo 256 |
| DnsEviction.RunThatRefuses | src/lwip/src/core/dns.c:867-967 | a run of 256 queries for a name that is not cached, from sequence number 0, after which a table of two refuses a query while it holds a completed entry numbered 255 |
| DnsEviction.RunThatEvictsTheYounger | src/lwip/src/core/dns.c:867-967 | a run of 257 such queries after which, of two completed entries, the one whose query was taken later is evicted |
| DnsResolver.Resolver.CheckEntry | src/lwip/src/core/dns.c:635-712 | dns_check_entry on the table, with the callbacks it calls |
| DnsResolver.Resolver.CheckEntries | src/lwip/src/core/dns.c:717-725 | a tick checks every entry once, and keeps the table's invariant |
| DnsResolver.Resolver.Recv | src/lwip/src/core/dns.c:732-849 | dns_recv on the bytes of a message: size, flags and question name are checked on the bytes, and one waiting entry is completed with the first Internet address record, or flushed |
| DnsResolver.Resolver.ReadReply | src/lwip/src/core/dns.c:779-831 | from the bytes: whether the message answers the query, and the time to live and address of its first address record |
| DnsMessage.FindAddress | src/lwip/src/core/dns.c:799-831 | the loop over the answers skips names and records of other types by their lengths, and stops at the first Internet address record |
| DnsMessage.GoodReplies | src/lwip/src/core/dns.c:779-784 | in the bits of the header: a reply with the response bit, no error code and one question |
| DnsMessage.AddressRecords | src/lwip/src/core/dns.c:802-812 | an address record is of type 1, class 1 and length 4, and its address is the data in network byte order |
| DnsMessage.QueryFits | src/lwip/src/core/dns.c:576-609 | of the host names of up to 255 characters that dns_gethostbyname lets pass, exactly those of at most 254 have a query that fits what dns_send allocates for it |
| DnsMessage.QueryAsks | src/lwip/src/core/dns.c:578-607 | the question of a query is the host name, label by label |
| DnsMessage.QueryFrame | src/lwip/src/core/dns.c:578-607 | around the name a query has the number of its entry, a count of one question, and type and class |
| DnsResolver.Resolver.FindSlot | src/lwip/src/core/dns.c:867-899 | the search of dns_enqueue finds the first unused entry, or the first of greatest positive age |
| DnsResolver.Resolver.Enqueue | src/lwip/src/core/dns.c:859-914 | dns_enqueue on the table: never evicts a waiting entry, and sends the query at once |
| DnsResolver.Resolver.LookUp | src/lwip/src/core/dns.c:449-479 | dns_lookup returns the address of the first completed entry of that name |
| DhcpReply.RxOptions.ParseReply | src/lwip/src/core/dhcp.c:1336-1531 | over any chain in whose fields options can be followed over the links, and whose overload options do not send the parser in a circle, the parser ends, and the tables and the result are those of one pass over the concatenated bytes |
| DhcpReply.RxOptions.ParseField | src/lwip/src/core/dhcp.c:1366-1488 | one field: the options found by the flat pass, error or not |
| DhcpReply.RxOptions.Locate | src/lwip/src/core/dhcp.c:1366-1378 | the link of the first option, and what is found from there on |
| DhcpReply.RxOptions.TakeOption | src/lwip/src/core/dhcp.c:1381-1475 | one option: its length, also when it is in the next link, its legality and its effect on the tables |
| DhcpReply.RxOptions.MoveOn | src/lwip/src/core/dhcp.c:1476-1487 | the step to the next link loses no option |
| DhcpReply.RxOptions.Classify | src/lwip/src/core/dhcp.c:1394-1447 | which lengths are legal, how much is kept, and where it goes |
| DhcpTags.FoundIfAcceptable | src/lwip/src/core/dhcp.c:1394-1447 | by the numbers of RFC 2132: which lengths of which options are refused |
| DhcpTags.ValueIsInItsPlace | src/lwip/src/core/dhcp.c:1394-1475 | by the same numbers: in which place each option's value is found |
| DhcpReply.RxOptions.StoreValue | src/lwip/src/core/dhcp.c:1452-1475 | a value is stored unless its place is taken; two DNS servers go to two places |
| DhcpReply.RxOptions.ParseOverloaded | src/lwip/src/core/dhcp.c:1489-1530 | overloaded fields, also those named by overloaded fields, are parsed after the options field, file before sname |
| DhcpChain.NextOption | src/lwip/src/core/dhcp.c:1476-1487 | in the domain, the next option is in this link or the next |
| DhcpChain.FollowableShift | src/lwip/src/core/dhcp.c:1366-1378 | the domain of a field does not depend on the links in front of it |
| DhcpLaws.FirstOccurrenceWins | src/lwip/src/core/dhcp.c:1336-1531 | over all fields the parser comes to, an option is given if and only if one of them has it, with the value of its first occurrence; the second DNS server comes with the first |
| DhcpLaws.PlainOrder | src/lwip/src/core/dhcp.c:1489-1530 | fields that name no further field are read in the order options, file, sname, each if overloaded |
| DhcpOptions.FoldTakesFirst | src/lwip/src/core/dhcp.c:1452-1475 | over one list of options, each place gets the first value for it |
| DhcpOptions.FoldSecondServer | src/lwip/src/core/dhcp.c:1411-1475 | the second DNS server comes from the option that gave the first |
| DhcpLaws.EndsExactlyWhen | src/lwip/src/core/dhcp.c:1336-1531 | for every message whose three fields can be followed over the links, fields cut short by an illegal length included, the parser comes to an end if and only if the overload values do not send it in a circle, and then after at most three more fields |
| DhcpLaws.DomainExactlyWhen | src/lwip/src/core/dhcp.c:1489-1530 | so the domain of the parser leaves out exactly the messages on which it runs for ever |
| DhcpLaws.CircularMessageNeverEnds | src/lwip/src/core/dhcp.c:1489-1530 | a message of 244 bytes whose file field names the file field is parsed for ever, whatever its first 108 bytes are, which dhcp_recv checks before |
| DhcpWriter.WriteAndParse | src/lwip/src/core/dhcp.c:1267-1531 | whatever writer calls were made before the trailer, if what they wrote is a list of options of legal lengths, the parser reads the message without error and finds each recognised option with its first written value; an overload option may be among them, sname and file being zero as dhcp_create_msg leaves them |
| DhcpWriter.ReadBack | src/lwip/src/core/dhcp.c:1336-1531 | the law of the bytes behind it: each recognised option, the second DNS server included, is read with its first written value, all others are skipped |
| DhcpWriter.TxOptions.WriteAll | src/lwip/src/core/dhcp.c:1267-1301 | any sequence of writer calls and the trailer leave the bytes of the calls, the end marker and padding in the field |
| DhcpWriter.CallsWrite | src/lwip/src/core/dhcp.c:1267-1283 | every list of options that fits the field can be written by calls whose assertions hold |
| DhcpWriter.LongIsRead | src/lwip/src/core/dhcp.c:1293-1301 | the parser reads a written 32-bit value as that value |
| DhcpWriter.TxOptions.OptionHeader | src/lwip/src/core/dhcp.c:1267-1273 | dhcp_option appends type and length |
| DhcpWriter.TxOptions.OptionShort | src/lwip/src/core/dhcp.c:1285-1291 | dhcp_option_short appends two bytes in network order |
| DhcpWriter.TxOptions.OptionLong | src/lwip/src/core/dhcp.c:1293-1301 | dhcp_option_long appends four bytes in network order |
| DhcpWriter.TxOptions.OptionTrailer | src/lwip/src/core/dhcp.c:1755-1768 | the trailer adds the end marker and fills the default field of 68 bytes exactly |
| DhcpOptions.ScanTlv | src/lwip/src/core/dhcp.c:1380-1488 | a pass over written options up to the end marker finds exactly these options |
| PoolCycle.Sanity | src/lwip/src/core/memp.c:182-200 | on every finite pointer graph memp_sanity ends, and returns 1 exactly if every pool's list reaches NULL |
| PoolCycle.IsFinite | src/lwip/src/core/memp.c:188-198 | the same for one list, with the fast walker one step ahead |
| PoolCycle.Meeting | src/lwip/src/core/memp.c:190-196 | from anywhere the two walkers meet or both come to the end |
| PoolCycle.MeetingDecides | src/lwip/src/core/memp.c:190-196 | meeting at an element means a circle, an end means none |
| Pool.Pools.Init | src/lwip/src/core/memp.c:338-370 | memp_init puts every element of every pool in its free list |
| Pool.ElementsDisjoint | src/lwip/src/core/memp.c:351-369 | elements of all pools lie inside the block and overlap nowhere |
| Pool.Pools.Malloc | src/lwip/src/core/memp.c:388-428 | memp_malloc hands out an element nobody holds, or NULL exactly when the pool's list is empty |
| Pool.Pools.Free | src/lwip/src/core/memp.c:435-469 | memp_free puts the element back; each element stays either free once or handed out |
| Pool.Pools.Check | src/lwip/src/core/memp.c:464-466 | in every state of the allocator the sanity check returns 1 |

## Left out

- API_EVENT notifications of api_msg.c to the socket layer, NETCONN_FLAG_CHECK_WRITESPACE and the draining of mailboxes when a netconn is deleted: the two layers are modelled apart.
- LWIP_TCPIP_CORE_LOCKING, LWIP_SO_SNDTIMEO, MSG_PEEK, and UDP and raw sockets in lwip_recvfrom: not in the configuration modelled.
- `write_offset` after a fatal tcp_write error: the code does not reset it, and the next do_write sets it to 0.
- The assertions of do_close and do_delconn that a new message finds no pending one: in the model the invariant says when they hold.
- Select.NoLostWakeup: no socket is closed while selects and callbacks run.
- Select.StepKeeps: the lock on the sockets is modelled as atomic steps; memory ordering of unprotected reads is not.
- errno values: the model ends with the results and errors the functions return.
- Receive.StreamSocket.Recvfrom: a blocking fetch from a mailbox that stays empty is modelled as a time-out.
- HeapInterrupt.SafeUnderInterrupts: works on the abstract chain, not on the bytes of `ram`, which `Heap` does for the uninterrupted build; the same holds of HeapHeld.KeepsBytes, which says whose a byte is.
- Heap.RamHeap.constructor: the end marker's `prev` is written but, as in the code, not maintained afterwards, so no law speaks of it.
- Heap statistics other than `used`, `err` and `illegal`, mem_calloc, and the MEM_USE_POOLS variant of mem_malloc.
- Pool.Pools.Malloc: overflow guard bytes, statistics, and the contents of elements that are handed out.
- DnsResolver.Resolver.Recv: names and records are assumed to be formed as section 4.1 of RFC 1035 says, with no owner name that is the bare root; on other bytes the code reads on without a bound. The message size and name buffer are those of the defaults, 512 and 256 bytes.
- DnsResolver.Resolver.Enqueue: names of 256 characters and more are refused by dns_gethostbyname before; sending packets, local host lists and numeric host names are left out.
- DhcpWriter.WriteAndParse: the message arrives in one link; with an overload option, only fields left zero are covered, as the client writes nothing into them.
- DhcpReply.RxOptions.ParseReply: the boot file name, and fields whose options do not stay inside the field, or do not start in the link of the option before or the next one, where the code reads past a link.
- The DHCP lease state machine, the hostname option, and all of TCP, IP, UDP, ARP, pbuf and timers, of which only headers are in the repository.
- Hardware, board and application code.
