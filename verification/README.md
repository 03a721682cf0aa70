# Verified models of hwdb-opendpi

This project models the parts of the repository where its difficulty lies, and proves what they are
for: the red-black tree and the other collision engines of libhashish with the hash table, rehash and
iteration on top of them; the SRPC protocol (reliable request/response over UDP) with its connection
table and timer; the hash functions whose fast forms must equal slow ones (Murmur, SHA-1, Jenkins
lookup3); and the stateful parts of OpenDPI (TCP sequence tracking, detector dispatch, line parsing).

`dafny verify dfyconfig.toml` checks everything.

## How it is built

* **Tree.** `RbShape` describes linked nodes by a tree and a context (the path above the node in
  focus), over a snapshot of the links; `RbBalance` has colours, black heights and the in-order
  sequence; `RbSearch` the key order, any total order, larger keys to the left; `RbTree` the code,
  writing links in place. `RbSnapshot` is the traversal for iterators.
  `RbWord` is the word that packs the parent and the colour of a node; it stands beside the tree,
  whose nodes keep the two in separate fields.
* **Hash table.** `ListEngine`, `ArrayEngine` and `RbTree` are the buckets, `HashBucket` the switch
  between them, `TableModel` the map a table of buckets stands for, `HashTable` the operations,
  the iterator, rehash and flow garbage collection. A hash function is any function.
* **SRPC.** `SrpcRecord` is the effect of one packet or one scan on a record, `SrpcSystem` the steps
  of a client record, a server record and a network that keeps every packet ever sent; API calls are
  cut at each wait, and the table mutex makes each piece atomic. `SrpcSafety` and `SrpcOrder` hold
  the invariants over runs, `SrpcTheorems` what follows, `SrpcTimer` the retry schedules. `SrpcPayloads`
  and `SrpcAnswers` say what is sent again and in answer to what, `SrpcLife` and `SrpcPings` how a
  connection is kept up and ends, `SrpcDelivery` and `SrpcCalls` that calls get through with losses.
  `SrpcConnection` and `SrpcTable` are the records and the table as the program keeps them, updated
  in place and proved to do those steps; `ServiceQueue` is the queue between reader and service.
  A copy out of a payload is modelled with whatever memory lies behind the payload.
* **Hash functions.** `Murmur`, `Sha1Rounds`, `Sha1Words`, `Sha1Stream`, `Jenkins`: the loops for any
  words and mixing steps; `MurmurMixing`, `JenkinsMixing`, `Sha1Values`: what the steps compute on
  32-bit words. `Bloom`.
* **OpenDPI.** `TcpTracker`, `Dispatch`, `LineParser`.
* **Shared.** `Options`, `Octets`, `Powers`, `Chains` (nodes of a linked list in order), `Guards`.

Some invariants are guarded by the predicate `Guards.Open`, which is always true: it only keeps the
verifier from looking into them where they are merely passed on.

Memory allocation always succeeds, addresses in packets are not modelled, and integers are unbounded
except where the width matters (sequence numbers, 16-bit counters, 32-bit words), where the wrap-around
is written out. In SRPC the guard that a reassembly buffer exists is written into the step functions;
`ServerCopiesInBounds` and `ClientCopiesInBounds` show that it never fails in a run.

Where the code differs from its documentation, the model follows the code: a key is smaller to the
right (libhashish/lib/hi_rbtree.c:357), automatic growth compares an integer quotient with the
threshold (libhashish/lib/hi_operations.c:139), a QACK moves a record to ST_AWAITING_RESPONSE from any
state (srpc.c:285), and a payload with 200 or more CRLF pairs loses the rest of its lines
(opendpi/src/lib/ipq_main.c:2001).

## Model

| member | source | states |
|---|---|---|
| RbTree.RbRoot.RotateLeft | libhashish/lib/hi_rbtree.c:60-81 | The links after a left rotation, node by node: only the node, its right child, that child's left subtree and the parent (or the root pointer) are rewritten. |
| RbTree.RbRoot.RotateRight | libhashish/lib/hi_rbtree.c:83-104 | The mirror image. |
| RbShape.RotateLeftHolds | libhashish/lib/hi_rbtree.c:60-81 | In any tree and at any place in it, those link updates leave a well-linked tree (parent links consistent) in which exactly the rotated subtree has changed shape. |
| RbShape.RotateRightHolds | libhashish/lib/hi_rbtree.c:83-104 | The same for the right rotation. |
| RbBalance.RotLInorder | libhashish/lib/hi_rbtree.c:60-81 | A left rotation keeps the in-order sequence of nodes. |
| RbBalance.RotRInorder | libhashish/lib/hi_rbtree.c:83-104 | A right rotation keeps the in-order sequence of nodes. |
| RbTree.RbRoot.InsertColor | libhashish/lib/hi_rbtree.c:107-169 | From any tree that is red-black except that one new red node may have a red parent: the loop ends, and leaves a tree with black root, no red node with a red child, equal black heights, consistent links and the same in-order sequence. |
| RbBalance.InsertRecolor | libhashish/lib/hi_rbtree.c:117-126 | Red uncle: after recolouring, the defect has moved to the grandparent and nothing else is wrong. |
| RbBalance.InsertInner | libhashish/lib/hi_rbtree.c:128-135 | Inner grandchild: the rotation at the parent turns it into the outer case, sequence kept. |
| RbBalance.InsertOuter | libhashish/lib/hi_rbtree.c:137-139 | Outer grandchild: repainting and rotating at the grandparent removes the defect and keeps every black height. |
| RbTree.RbRoot.EraseColor | libhashish/lib/hi_rbtree.c:171-255 | From any tree with one black node missing above the node in focus: the climbing loop ends, and leaves a red-black tree with consistent links and the same in-order sequence. |
| RbBalance.EraseRedSibling | libhashish/lib/hi_rbtree.c:181-187 | Red sibling (both sides): repainting and rotating gives the black-sibling case with the missing black still at the same node. |
| RbBalance.EraseBlackNephews | libhashish/lib/hi_rbtree.c:188-194 | Two black nephews (both sides): painting the sibling red moves the missing black to the parent. |
| RbBalance.EraseInnerNephew | libhashish/lib/hi_rbtree.c:197-205 | Only the inner nephew red (both sides): becomes the outer-nephew case. |
| RbBalance.EraseOuterNephew | libhashish/lib/hi_rbtree.c:206-212 | Outer nephew red (both sides): repainting and rotating makes up for the missing black everywhere. |
| RbTree.RbRoot.FindSuccessor | libhashish/lib/hi_rbtree.c:271-276 | The leftmost node of the right subtree, with the path to it. |
| RbTree.RbRoot.Splice | libhashish/lib/hi_rbtree.c:278-301 | Takes the successor out and puts it in the place and colour of the erased node, including the case where the successor's parent is the erased node itself. |
| RbBalance.SpliceBalance | libhashish/lib/hi_rbtree.c:269-303 | Replacing a node by its successor leaves at most one black missing, at the successor's old place, and drops exactly the erased node from the sequence. |
| RbBalance.UnlinkBalance | libhashish/lib/hi_rbtree.c:305-318 | Unlinking a node with at most one child leaves at most one black missing, at its child. |
| RbTree.RbRoot.EraseNode | libhashish/lib/hi_rbtree.c:258-323 | Erasing any node of any red-black tree terminates and yields a red-black tree with consistent links that holds exactly the other nodes in the same order. |
| RbTree.RbRoot.Search | libhashish/lib/hi_rbtree.c:344-361 | The search loop shared by get, remove and insert: finds the node with the key or the place where it belongs; for a tree of n nodes 2^steps <= (n+1)^2, that is at most 2*log2(n+1) steps; smaller keys are to the right. |
| RbBalance.HeightBound | libhashish/lib/hi_rbtree.c:107-169 | In every red-black tree of n nodes 2^height <= (n+1)^2. |
| RbTree.RbRoot.Get | libhashish/lib/hi_rbtree.c:336-364 | The data stored under the key, or HI_ERR_NOKEY if and only if it is absent. |
| RbTree.RbRoot.LinkNode | libhashish/include/rbtree.h:68-75 | The new red leaf hangs at the hole found by the search, links consistent. |
| RbTree.RbRoot.Insert | libhashish/lib/hi_rbtree.c:468-514 | A new key gives a valid red-black tree with exactly that entry added; a duplicate gives HI_ERR_DUPKEY and changes nothing, not even a link. |
| RbTree.RbRoot.Remove | libhashish/lib/hi_rbtree.c:420-460 | A present key: its data, and a valid tree with exactly that entry gone; an absent key: HI_ERR_NOKEY and nothing changed. |
| RbSnapshot.Traverse | libhashish/lib/hi_rbtree.c:367-388 | Writes the entries of the subtree to consecutive places, node before subtrees, and nothing else; returns the place after the last. |
| RbSnapshot.PreorderPermutes | libhashish/lib/hi_rbtree.c:367-388 | That snapshot holds every entry of the tree, each as often as in order. |
| RbSnapshot.ToArray | libhashish/lib/hi_rbtree.c:391-416 | The snapshot of a whole tree. |
| RbWord.ParentColor.SetParent | libhashish/include/rbtree.h:48-51 | The parent changes and the colour does not, both in one word. |
| RbWord.ParentColor.SetColor | libhashish/include/rbtree.h:45-55 | The colour changes and the parent does not. |
| SrpcConnection.CRecord.SetState | crecord.c:48-53 | The state and the ping counters, as `SrpcRecord.SetState` says. |
| SrpcConnection.CRecord.SetPayload | crecord.c:55-64 | The payload and its retry counters, as `SrpcRecord.SetPayload` says. |
| SrpcConnection.CRecord.TakeQuery | srpc.c:231-282 | The in-place QUERY case does to the record, sends and queues exactly what the step function says. |
| SrpcConnection.CRecord.TakeResponse | srpc.c:290-318 | The same for RESPONSE. |
| SrpcConnection.CRecord.TakeFragment | srpc.c:344-397 | The same for FRAGMENT. |
| SrpcConnection.CRecord.TakeControl | srpc.c:319-446 | The same for the packets that at most move the record to another state. |
| SrpcConnection.CRecord.Handle | srpc.c:187-446 | Every case of the reader's switch for a packet whose record exists; the table links are untouched. |
| SrpcConnection.CRecord.Count | ctable.c:108-140 | What a scan does to one record, 16-bit counters included. |
| SrpcConnection.MakePiece | srpc.c:698-723 | Fragment f of a query or response carries the bytes from FR_SIZE*(f-1) on, and only the last is not a FRAGMENT. |
| SrpcConnection.CRecord.BeginCall | srpc.c:677-710 | Below SEQNO_LIMIT, the piece of `rpc_call` up to its first wait is the step `CallStart` of the protocol model. |
| SrpcConnection.CRecord.BeginResponse | srpc.c:808-823 | The piece of `rpc_response` up to its first wait is the step `RespondStart`. |
| SrpcConnection.CRecord.ContinueCall | srpc.c:699-726 | The piece of `rpc_call` after each wait for a FACK is the step `CallNext`. |
| SrpcConnection.CRecord.FinishCall | srpc.c:726-736 | The end of `rpc_call` is the step `CallFinish`: if the announced length fits the caller's buffer, that many bytes are copied into it and `*rlen` is that length; the bytes past the payload's own come from whatever memory follows it. Otherwise the buffer is left alone. |
| SrpcConnection.CRecord.ContinueResponse | srpc.c:812-840 | The piece of `rpc_response` after each wait is the step `RespondNext`. |
| SrpcSafety.NextInv | srpc.c:144-512 | Every step of the two endpoints (packet, timer scan, piece of an API call) keeps the cross-endpoint invariant, on a network that loses, duplicates and reorders: in particular a multi-fragment QUERY is only in flight once the server has moved to its sequence number. |
| SrpcSafety.RunInv | srpc.c:144-844 | The invariant holds in every state of every run. |
| SrpcTheorems.QueriesOnceInOrder | srpc.c:231-282 | Over every run each sequence number reaches the service queue at most once, in strictly increasing order, and the queued bytes are those given to `rpc_call` for that number, fragmented or not. |
| SrpcTheorems.HistoryGrows | srpc.c:662-844 | What was called, queued or answered stays as it was for the rest of the run. |
| SrpcOrder.NextOrder | srpc.c:144-512 | The additional invariant for runs in which no packet of the server overtakes another is kept by every step. |
| SrpcTheorems.RepliesExactInOrder | srpc.c:726-739 | In every such run, whenever `rpc_call` returns 1 the bytes handed back are those passed to `rpc_response` for the same sequence number. |
| SrpcTheorems.RepliesOnAnyNetwork | srpc.c:290-318 | On any network the length handed back is that of the response; a response of at most FR_SIZE bytes comes back exactly; a longer one is copied from its own bytes, or from its last fragment alone under the length of all of it, and the copy stays inside the payload if and only if the former. |
| SrpcTheorems.CopyOut | srpc.c:728-732 | For a payload that can be in a record: copying `tlen` bytes stays within it if and only if it is the whole response; then the copy is the response, and otherwise it is the last fragment followed by FR_SIZE*(nfrags-1) bytes from beyond the payload. |
| SrpcTheorems.FinishOnAnyNetwork | srpc.c:726-732 | Over every run, when `rpc_call` wakes in ST_IDLE the announced length is that of the response, and the copy is in bounds if and only if the payload is the response. |
| SrpcTheorems.FinishInBounds | srpc.c:728-732 | Over every run in which no packet of the server overtakes another, the copy out of the payload is in bounds: it holds exactly the announced number of bytes. |
| SrpcTheorems.ReplyCopiesInOrder | srpc.c:726-739 | In every such run the bytes copied to the caller are those passed to `rpc_response`, whatever memory lies behind the payload. |
| SrpcTheorems.QueryCopies | srpc.c:778-795 | Over every run the bytes that a worker copies off the service queue are those given to `rpc_call`, and the copy is in bounds. |
| SrpcTheorems.ResponseExactIff | srpc.c:283-318 | In any reachable state a RESPONSE that the client takes is right if and only if it is the only fragment or does not find the record still waiting for a first packet. |
| SrpcTheorems.OvertakingBreaksReplies | srpc.c:283-289 | A concrete run in which a late QACK makes `rpc_call` return 1 with the right length, 1025, from a payload that holds one byte: the other 1024 are read past its end. So the order assumption is needed. |
| SrpcTheorems.ServerCopiesInBounds | srpc.c:248-259 | Every fragment the server copies finds a buffer and fits it. |
| SrpcTheorems.ClientCopiesInBounds | srpc.c:304-308 | The same for the client. |
| SrpcTheorems.ResponseThere | srpc.c:726-734 | When `rpc_call` wakes up in ST_IDLE there is a response to read. |
| SrpcPayloads.NextHolds | srpc.c:144-512 | Every step keeps what each record is to send again: CONNECT, a fragment with the waiting thread's number, the end of the query or response of its sequence number, DISCONNECT, or the acknowledgement of the packet taken last. |
| SrpcAnswers.ClientRetransmits | srpc.c:493-508 | Over every run: a scan with the verdict RETRY appends exactly one packet to what the client sends: the CONNECT; fragment f with the call's bytes from 1024*(f-1) to 1024*f; the QUERY with its last bytes; or the DISCONNECT; each written out. |
| SrpcAnswers.ServerRetransmits | srpc.c:493-508 | The same for the server: exactly one packet, the fragment that waits for its FACK or the RESPONSE, with the bytes given to `rpc_response`. |
| SrpcAnswers.OtherScans | srpc.c:476-508 | A scan with any other verdict sends nothing, or exactly one PING for PINGED. |
| SrpcAnswers.RepeatedQuery | srpc.c:262-279 | Over every run: a QUERY for the sequence number the server is at queues nothing; it is answered by the same QACK until the worker answers, by the end of the response once that is out, and otherwise not at all. |
| SrpcAnswers.RepeatedFragment | srpc.c:374-394 | The fragment taken last, delivered again, is answered by the same FACK and changes nothing. |
| SrpcAnswers.RepeatedResponseFragment | srpc.c:374-394 | The same for the client and the fragments of a response. |
| SrpcAnswers.RepeatedConnect | srpc.c:188-218 | A CONNECT for an existing record: answered if and only if it is idle, by the same CACK before the first response and by the last response after it. |
| SrpcAnswers.ResponseAnsweredIff | srpc.c:290-318 | A RESPONSE for the client's call is answered by a RACK if and only if the client waits for it or puts it together and this is the end; one that was taken already is not answered, so a lost RACK is not made up for. |
| SrpcAnswers.SeqnoTaken | srpc.c:422-443 | SEQNO and SACK: a server that is not in a call takes the number and answers every copy with a SACK, which ends the client's wait; any other does not answer. |
| SrpcAnswers.RackEnds | srpc.c:319-325 | Over every run: a RACK with the server's sequence number makes its record idle, queues nothing, and no scan repeats the response from there on. |
| SrpcAnswers.GivenUp | srpc.c:485-489 | A scan that gives a record up makes it ST_TIMEDOUT and sends nothing; the next scan removes the record. |
| SrpcAnswers.WaitsEnd | srpc.c:709-742 | Whoever waits for a record that was given up wakes up: `rpc_connect`, `rpc_call` at a fragment or at the response, `rpc_disconnect`, `rpc_response`; nothing more is sent and no response is returned. |
| SrpcLife.PingAnswered | srpc.c:407-415 | Over every run: a PING leaves the record as it is and is answered by exactly one PACK with its number; without a record it is not answered. |
| SrpcLife.DisconnectAnswered | srpc.c:327-336 | A DISCONNECT is answered by exactly one DACK, record or no record, and ends the record. |
| SrpcLife.NextAsked | srpc.c:144-512 | Every step keeps: a PACK is only on the network if a PING with its number is on it in the other direction, a DACK only with a DISCONNECT, and a DISCONNECT only once the client has asked to disconnect. |
| SrpcLife.EndedByTimerOnly | srpc.c:327-343 | Over every run, until the client disconnects: no packet ends a connection; a record only times out by the verdict of its own timer. |
| SrpcLife.DisconnectCloses | srpc.c:747-767 | From every reachable state in which the client disconnects: when its DISCONNECT and then the answer to it are delivered, `rpc_disconnect` returns and the next scan of each side removes its record. |
| SrpcPings.ClientKeptUp | ctable.c:126-140 | Over every run in which each ping of the client reaches the server and the answer comes back before 3000 more scans are over: no scan gives up the client's record while it waits for nothing. |
| SrpcPings.ServerKeptUp | ctable.c:126-140 | The same for the server's record and the pings that the client answers. |
| SrpcDelivery.QueryFragment | srpc.c:699-719 | A fragment of a query gets through and the next one goes out although the first copies of the fragment and of its FACK are lost. |
| SrpcDelivery.ResponseFragment | srpc.c:812-834 | The same for a fragment of a response. |
| SrpcCalls.LossyCall | srpc.c:662-742 | From every connected state with no call under way: a query of any size is answered by a response of any size on a network that never delivers the first copy of any packet; the service gets exactly the query, once, and the caller exactly the response. |
| SrpcCalls.LossyCalls | srpc.c:625-742 | On such a network a connection can be set up and any number of calls be made on it: the service gets exactly the queries in order, each once, and every call returns exactly its response. |
| SrpcTimer.PayloadSchedule | ctable.c:112-125 | A record armed with n attempts and t ticks, whose last interval t*2^(n-1) is a 16-bit number, and left unanswered is repeated at exactly the scans t*(2^i-1) for 1 <= i < n and declared timed out at exactly scan t*(2^n-1). |
| SrpcTimer.PayloadRetries | ctable.c:115-125 | That is n-1 repetitions. |
| SrpcTimer.PayloadSent | srpc.c:493-508 | At exactly those scans its payload goes out, and nothing at the others. |
| SrpcTimer.PayloadConstants | srpcdefs.h:17-19 | For the constants: 6 repetitions, at scans 2, 6, 14, 30, 62 and 126, and timed out at scan 254. |
| SrpcTimer.SilentSchedule | ctable.c:126-140 | A silent record that waits for nothing is pinged at scans 3000 and 6000 and timed out at scan 9000. |
| SrpcTimer.MessageKeepsCounters | srpc.c:187-446 | No packet brings the counters of any record out of range. |
| SrpcTimer.CountersNeverWrap | ctable.c:112-142 | In no state of any run can a scan take a 16-bit counter below zero or double one past its range. |
| SrpcTable.CTable.Insert | ctable.c:49-59 | The record becomes the first of its bucket; all else stays. |
| SrpcTable.CTable.Remove | ctable.c:79-95 | The record leaves its bucket and every other record keeps its place. |
| SrpcTable.CTable.ScanAll | ctable.c:97-147 | After a scan every record was counted down once, and each of the four lists is acyclic and holds exactly the records of the table with its verdict. |
| SrpcTable.PickedHolds | ctable.c:105-142 | Each record is on at most one list, once. |
| SrpcTable.CTable.PurgeAll | srpc.c:477-482 | Purging a list removes exactly its records and every bucket keeps its other records in order. |
| SrpcTable.CTable.TimerPass | srpc.c:476-508 | A timer pass removes exactly the records that were in ST_TIMEDOUT, moves every other one and sends to it exactly what the per-record step of the protocol model says. |
| ServiceQueue.Queue.Append | tslist.c:43-61 | The item becomes the last of the queue. |
| ServiceQueue.Queue.Prepend | tslist.c:65-81 | The item becomes the first. |
| ServiceQueue.Queue.Remove | tslist.c:84-103 | Takes out the first item. |
| ServiceQueue.Fifo | tslist.c:43-103 | Over every run of appends and removes: what is out, followed by what is in, is what went in, in order. |
| ListEngine.ListBucket.Get | libhashish/lib/hi_list.c:202-254 | The data under the key; with move-to-front the entry is relinked to the front and the others keep their order. |
| ListEngine.ListBucket.Insert | libhashish/lib/hi_list.c:306-337 | The new entry is the first. |
| ListEngine.ListBucket.Remove | libhashish/lib/hi_list.c:127-191 | Exactly the entry with the key is unlinked. |
| ListEngine.ListBucket.ToArray | libhashish/lib/hi_list.c:24-72 | The bucket from front to back. |
| ArrayEngine.ArrayBucket.Find | libhashish/lib/hi_array.c:48-85 | The scan that stops after `slot_size` live slots finds the key if and only if it is in the bucket. |
| ArrayEngine.ArrayBucket.Fill | libhashish/lib/hi_array.c:273-295 | There always is a free slot: the exit with HI_ERR_INTERNAL is not reached. |
| ArrayEngine.ArrayBucket.Insert | libhashish/lib/hi_array.c:228-295 | HI_ERR_DUPKEY if and only if present, else exactly that entry added, with doubling when full. |
| ArrayEngine.ArrayBucket.Remove | libhashish/lib/hi_array.c:113-187 | Exactly the entry with the key is gone. |
| ArrayEngine.ArrayBucket.ToArray | libhashish/lib/hi_array.c:190-220 | The copy has room for `slot_size` entries and gets the live ones of the first `slot_size` slots; the rest of it is not written. |
| ArrayEngine.CopyIff | libhashish/lib/hi_array.c:205-216 | The copy is the bucket's entries if and only if the first `slot_size` slots are all live; otherwise its end is not written and there is an entry behind the slots that are copied. |
| ArrayEngine.HoleExample | libhashish/lib/hi_array.c:205-216 | Two slots filled and the first one freed: the copy has one place, which is not written, and misses the entry that is there. |
| TableModel.Lookup | libhashish/lib/hi_operations.c:67-93 | A key is in the map the table stands for if and only if it is in the bucket it hashes to, with the same data. |
| TableModel.InsertModel | libhashish/lib/hi_operations.c:152-182 | Adding an entry to its bucket, at whatever place, adds it to the map and nothing else. |
| TableModel.RemoveModel | libhashish/lib/hi_operations.c:104-129 | Taking an entry out of its bucket takes it out of the map and nothing else. |
| HashTable.Table.constructor | libhashish/lib/lib_init.c:306-373 | An empty table of the wanted size and engine. |
| HashTable.Create | libhashish/lib/lib_init.c:84-151 | Refuses a size of zero, and an array size of zero for arrays, with HI_ERR_NODATA; gives an empty table otherwise. |
| HashTable.Table.Get | libhashish/lib/hi_operations.c:67-93 | For every engine: the map's data or HI_ERR_NOKEY if and only if absent; the map is unchanged. |
| HashTable.Table.Insert | libhashish/lib/hi_operations.c:152-182 | For every engine: HI_ERR_DUPKEY if and only if present, else the map with the entry added; `no_objects` is the size of the map; with automatic growth and a threshold in [0,1) `no_objects <= table_size` is kept. A table that is dense (no array bucket has a hole) stays so; an array table with holes must not grow by itself. |
| HashTable.Table.Remove | libhashish/lib/hi_operations.c:104-129 | For every engine: HI_ERR_NOKEY if and only if absent, else the data and the map without the key; no other bucket changes. |
| HashTable.Table.DoRehash | libhashish/lib/hi_operations.c:132-143 | Doubles a dense table if and only if there are at least as many objects as buckets; the map is unchanged. |
| HashTable.Table.Rehash | libhashish/lib/lib_init.c:381-487 | A dense table of any engine that is not empty keeps its map and gets the new size; an empty one is refused with HI_ERR_NODATA and left alone. |
| HashTable.Iter.NextBucket | libhashish/lib/hi_iterator.c:77-117 | In a dense table of any engine: skips exactly the empty buckets. |
| HashTable.Iter.GetNext | libhashish/lib/hi_iterator.c:185-224 | In a dense table of any engine: hands out one of the pending entries, which is then no longer pending, and HI_ERR_NODATA if and only if none is. |
| HashTable.WalkAll | libhashish/lib/hi_iterator.c:120-224 | A full iteration over a dense table of any engine returns each entry of the map exactly once. |
| HashTable.AnySnapshot | libhashish/lib/hi_iterator.c:77-117 | For every engine and every table: the snapshot of a bucket has exactly its entries if and only if the bucket is dense. |
| HashTable.DenseIff | libhashish/lib/hi_array.c:205-216 | A table is dense if and only if no entry lies in a slot behind those that a snapshot of its bucket copies. |
| HashTable.CollectGarbage | dpilogger.c:177-187 | Removing timed-out flows while iterating leaves exactly the flows that have not timed out. |
| HashTable.PerformAll | libhashish/lib/hi_operations.c:32-182 | Every sequence of insert, get and remove on every engine gives the answers of one abstract map, with `no_objects` its size and never above `table_size` when the table grows by itself; for an array table that grows by itself, every sequence with no insert after a remove. |
| Murmur.Plain | libhashish/lib/hash_func_murmur.c:110-128 | The plain loop, with its reads and its tail switch, computes the word-by-word hash. |
| Murmur.Unaligned | libhashish/lib/hash_func_murmur.c:33-99 | The path with a shifted register gives the same hash for every string of at least 4 bytes, every misalignment 1 to 3, every starting value, whatever the mixing steps are, and on any machine words whose operations are those on registers of four bytes. |
| Murmur.JoinedWord | libhashish/lib/hash_func_murmur.c:54-66 | The register and the next aligned word, shifted and or'ed, are the next unaligned word or what is left of it. |
| Murmur.Uint32Implements | libhashish/lib/hash_func_murmur.c:33-129 | The 32-bit operations of the program are such words: the reads, the left shift of the first word, `(t >> sr) | (d << sl)` for every alignment, and the switch on the tail. |
| Murmur.JoinValue | libhashish/lib/hash_func_murmur.c:57-57 | `(t >> sr) | (d << sl)` on 32-bit words is the value of the register joined byte by byte, for each alignment. |
| Murmur.FoldValue | libhashish/lib/hash_func_murmur.c:122-127 | The tail switch, which folds in bytes one by one, is one exclusive or with the word that they make. |
| Murmur.MurmurHash2 | libhashish/lib/hash_func_murmur.c:102-129 | On 32-bit words: the hash is the word-by-word hash for every alignment of the key. |
| Murmur.KnownKeys | libhashish/lib/hash_func_murmur.c:102-129 | The hashes of four keys of 0, 1, 4 and 7 bytes, as numbers, at every alignment. |
| Murmur.SameStart | libhashish/lib/hash_func_murmur.c:110-128 | For every key the hash is one-to-one in the value it starts from. |
| Murmur.OneWordDiffers | libhashish/lib/hash_func_murmur.c:110-128 | Two keys of the same length that differ in one aligned word only, or in the bytes after the last word, never have the same hash. |
| MurmurMixing.MixSplits | libhashish/lib/hash_func_murmur.c:19-23 | A step multiplies the hash by 0x5bd1e995 and takes the stirred word in by exclusive or. |
| MurmurMixing.MixUndone | libhashish/lib/hash_func_murmur.c:19-23 | From what a step makes of a word the word comes back: multiplied by 0xe59b19bd, `y ^ (y >> 24)`, multiplied by 0xe59b19bd again. |
| MurmurMixing.FiniUndone | libhashish/lib/hash_func_murmur.c:25-31 | The final steps are undone by `y ^ (y >> 15) ^ (y >> 30)`, the multiplication by 0xe59b19bd, and `z ^ (z >> 13) ^ (z >> 26)`. |
| Sha1Rounds.RSchedule | libhashish/lib/hash_func_sha1.c:114-119 | The macro R on the 16-word circular array gives word t of the 80-word schedule of FIPS 180-1. |
| Sha1Rounds.PRound | libhashish/lib/hash_func_sha1.c:121-124 | The macro P with rotating register names is a round of FIPS 180-1. |
| Sha1Rounds.Process | libhashish/lib/hash_func_sha1.c:91-245 | The 80 unrolled lines compute the compression function of section 7, for any word operations. |
| Sha1Rounds.LowCompress | libhashish/lib/hash_func_sha1.c:112-124 | Computing in wider words and dropping the upper bits gives what the narrow words give. |
| Sha1Words.ProcessLong | libhashish/lib/hash_func_sha1.c:91-245 | In a 64-bit `unsigned long` the lower halves are those of FIPS 180-1, whatever the upper halves were. |
| Sha1Words.WordLaws | libhashish/lib/hash_func_sha1.c:132-214 | The program's forms of Ch and Maj and its order of summation agree with FIPS 180-1 on 32-bit words. |
| Sha1Values.ScheduleWords | libhashish/lib/hash_func_sha1.c:114-119 | Word t of the schedule, from 16 on, written out: x = w(t-3) ^ w(t-8) ^ w(t-14) ^ w(t-16) shifted circularly, `(x << 1) | (x >> 31)`. |
| Sha1Values.RoundWords | libhashish/lib/hash_func_sha1.c:121-124 | A round, written out on 32-bit words: the shifts by 5 and 30, the sum and the move of the registers. |
| Sha1Values.CompressWords | libhashish/lib/hash_func_sha1.c:91-245 | After 80 rounds each register is added to the old one modulo 2^32. |
| Sha1Values.Choose | libhashish/lib/hash_func_sha1.c:132-132 | The logical function of rounds 0 to 19, bit by bit. |
| Sha1Values.Majority | libhashish/lib/hash_func_sha1.c:186-186 | That of rounds 40 to 59. |
| Sha1Values.Parity | libhashish/lib/hash_func_sha1.c:159-159 | That of the other rounds. |
| Sha1Values.Constants | libhashish/lib/hash_func_sha1.c:133-214 | The four round constants are 2^30 times the square roots of 2, 3, 5 and 10, rounded down. |
| Sha1Values.InitialWords | libhashish/lib/hash_func_sha1.c:84-88 | The five initial words. |
| Sha1Values.FirstHighest | libhashish/lib/hash_func_sha1.c:57-75 | In a word the first byte is the highest, on the way in and out. |
| Sha1Values.BytesBack | libhashish/lib/hash_func_sha1.c:57-75 | Writing out a word gives back the four bytes it was read from. |
| Sha1Values.LengthField | libhashish/lib/hash_func_sha1.c:308-313 | In the length field of the padding one more digit at the lower end moves the others up. |
| Sha1Stream.Context.Update | libhashish/lib/hash_func_sha1.c:250-289 | However the input is cut, the blocks processed are those of all bytes fed so far, and the two-word count is right. |
| Sha1Stream.Context.Finish | libhashish/lib/hash_func_sha1.c:302-326 | Feeds exactly the padding of section 4 of FIPS 180-1, nothing is left over, and the digest is that of the padded message. |
| Sha1Stream.Sha1 | libhashish/lib/hash_func_sha1.c:331-340 | The whole hash depends on the bytes alone. |
| Jenkins.Hash32 | libhashish/lib/hash_func_jenkins3.c:195-258 | The branch that reads 32-bit words computes the reference hash. |
| Jenkins.Hash16 | libhashish/lib/hash_func_jenkins3.c:258-304 | So does the branch that reads 16-bit words. |
| Jenkins.Hash8 | libhashish/lib/hash_func_jenkins3.c:305-346 | So does the branch that reads bytes. |
| Jenkins.HashLittle | libhashish/lib/hash_func_jenkins3.c:186-350 | The three branches give one hash for every byte string and seed. |
| JenkinsMixing.MixBijective | libhashish/lib/hash_func_jenkins3.c:113-121 | `mix` has an inverse from both sides: it is a bijection on triples of 32-bit words. |
| JenkinsMixing.FinalUndone | libhashish/lib/hash_func_jenkins3.c:148-157 | `final` is undone by its steps backwards, so nothing of the three registers is lost. |
| Jenkins.KnownHashes | libhashish/lib/hash_func_jenkins3.c:186-350 | The hashes of a key of 30 bytes for the start values 0 and 1, and of the empty key, as numbers. |
| Jenkins.KnownKeys | libhashish/lib/hash_func_jenkins3.c:186-350 | The same from the code, at every alignment. |
| Bloom.Filter.Add | libhashish/lib/hi_bloom_filter.c:78-96 | Exactly the bits of the key are set besides those that were; set bits plus `bit_collision` equal k times n. |
| Bloom.Filter.Check | libhashish/lib/hi_bloom_filter.c:112-129 | Present if and only if each bit of the key is a bit of some key that was added, so never absent for an added key. |
| TcpTracker.Flow.Track | opendpi/src/lib/ipq_main.c:1555-1601 | The counters and the report of the in-place code are those of `Tracked`. |
| TcpTracker.TracksOn | opendpi/src/lib/ipq_main.c:1566-1595 | For a segment at most the window ahead and less than 2^32 minus the window behind: the counter becomes the highest stream offset modulo 2^32, and the report is true in terms of offsets: a retransmission if and only if it starts behind, with exactly the bytes that were seen and those that are new; otherwise nothing retried and the whole payload new. |
| TcpTracker.TracksOnIff | opendpi/src/lib/ipq_main.c:1568-1571 | Up to 2^32-2^16 away, the counter is right if and only if the segment is not further ahead than the window. |
| TcpTracker.WindowEdge | opendpi/src/lib/ipq_main.c:1568-1571 | The edge of the window by example: 65536 ahead is followed, 65537 ahead is taken for a retransmission and moves nothing. |
| TcpTracker.RunTracks | opendpi/src/lib/ipq_main.c:1555-1601 | Over every packet sequence in reach from the start of a flow, resets and new beginnings included: the counters are the highest offsets of the streams followed, modulo 2^32, and zero while none are; every packet is reported truly. In reach means also that the two ends are not both multiples of 2^32 at once. |
| TcpTracker.ResetClears | opendpi/src/lib/ipq_main.c:1597-1600 | After a packet with RST both counters are zero, whatever they were. |
| TcpTracker.KnownSince | opendpi/src/lib/ipq_main.c:1559-1601 | After a start or reset, the first packet with sequence and acknowledgement numbers not zero starts two streams, and without another reset the ends known are the highest offsets from there on. |
| TcpTracker.UnknownUntil | opendpi/src/lib/ipq_main.c:1559-1565 | A packet before that leaves the counters zero. |
| Dispatch.BuildTables | opendpi/src/lib/ipq_main.c:1357-1421 | The four tables are the sub-sequences of the callback buffer with the stated masks, in order. |
| Dispatch.TablesSuffice | opendpi/src/lib/ipq_main.c:1362-1421 | Each table gives the same calls in the same order and the same state as the whole buffer with the full test. |
| Dispatch.MarkedSuffices | opendpi/src/lib/ipq_main.c:1357-1421 | If every detector names TCP, UDP, either of them or complete traffic, the split makes no difference: every packet of a flow is dispatched as if the whole buffer were walked with the full test. |
| Dispatch.UnmarkedSkipped | opendpi/src/lib/ipq_main.c:1362-1400 | A detector that names none of these is never called for a TCP or UDP packet. |
| Dispatch.MaskMet | opendpi/src/lib/ipq_main.c:1651-1675 | Which packets a mask lets through, flag by flag. |
| Dispatch.ProcessPacket | opendpi/src/lib/ipq_main.c:1646-1731 | Dispatch equals walking the whole buffer with the full mask test, restricted for TCP and UDP packets to detectors whose mask names that transport or complete traffic, unrestricted otherwise; detectors are arbitrary state changers. |
| LineParser.Parse | opendpi/src/lib/ipq_main.c:1911-2024 | With 1 to 199 CRLF pairs no recorded line contains CRLF and joining the lines with CRLF (plus a trailing one when the payload ends so) rebuilds the payload; with none nothing is recorded, with more the recorded lines are its beginning; the line index stays below 200 for every payload. Each header field, and the empty-line position, comes from the last line that has it among the lines a CRLF ends: a last line without CRLF is not looked at, the 200th line is, though it is not counted. |
| LineParser.HostField | opendpi/src/lib/ipq_main.c:1922-1932 | A line that begins with `Host:` and a space has the host behind the space, and without the space behind the colon. |
| LineParser.ContentField | opendpi/src/lib/ipq_main.c:1934-1947 | The three spellings of the content type. |
| LineParser.LengthField | opendpi/src/lib/ipq_main.c:1978-1983 | The two spellings of the content length. |
| LineParser.OtherFields | opendpi/src/lib/ipq_main.c:1949-1993 | The names of the other seven fields, and where their values begin. |

## Left out

- SEQNO and SACK as steps of a run: they start a new epoch of sequence numbers. The record operations cover them, the run theorems are stated for sequence numbers below the limit.
- Re-creation of a purged server record by a late CONNECT: it starts another record lifetime.
- Queries and responses of zero bytes: the fragment count is meant for at least one.
- More than one client thread per connection, and more than one connection per run of the protocol model; the table and timer are modelled for any number of records.
- `rpc_connect` and `rpc_disconnect` as methods of the record class: they are steps of the protocol model (`Start`, `ConnectDone`, `Disconnect`).
- `ctable_lookup` and `endpoint_equal`: the comparison takes an address with itself (endpoint.c:43).
- Sockets, threads, clocks, logging and memory management.
- The list engines with a second hash: insert never stores the hash (libhashish/lib/hi_list.c:320-322) and one get compares it with `!=` (libhashish/lib/hi_list.c:280).
- The array engines other than COLL_ENG_ARRAY, which are stubs.
- Iteration and rehash over an array table with holes: the snapshot reads only the first `slot_size` slots although removals leave holes, so part of it is memory that was never written (libhashish/lib/hi_array.c:205-216). `ArrayEngine.CopyIff` says exactly when that happens; what the program then does with such memory is not modelled. The key length is stored at the slot's index, not at the copy's (libhashish/lib/hi_array.c:214), which makes a difference only there.
- The key comparators for integers: subtraction is no total order at the extremes (libhashish/lib/cmp_funcs.c:37).
- 32-bit overflow of `table_size` and of an array bucket's slot count when they are doubled, and of the object and Bloom filter counters.
- Skein, CubeHash, Goulburn and the one-line hash functions.
- The parser for lines ending in LF alone: no property modelled here depends on it.
- The protocol detectors themselves: in the dispatch they are arbitrary state changes.
- The hex number readers, which multiply by ten and do not step over "0x" (opendpi/src/lib/ipq_main.c:1760-1789).
- Murmur.MurmurHash2: little-endian machines only, because the shifts of the unaligned path are written for that byte order.
- Jenkins.HashLittle: little-endian machines only; on others the code reads bytes.
- HashTable.Table.Insert: an array table with holes must not grow by itself, because of what is said above.
- HashTable.Table.DoRehash: not for array tables with holes, for the reason above.
- HashTable.Table.Rehash: not for array tables with holes, for the reason above.
- HashTable.Iter.NextBucket: not for array tables with holes, for the reason above.
- HashTable.Iter.GetNext: not for array tables with holes, for the reason above.
- HashTable.WalkAll: not for array tables with holes, for the reason above.
- HashTable.PerformAll: an array table that grows by itself must have no holes and must not be inserted into after a removal, for the reason above.
- SrpcConnection.CRecord.BeginCall: below SEQNO_LIMIT; at the limit the program first starts a new epoch.
- SrpcTheorems.QueriesOnceInOrder: within one epoch of sequence numbers and one lifetime of the server's record, as said above.
- Command-line tools, persistence, statistics and floating-point formulas.
