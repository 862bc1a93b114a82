# Proofs about libzvbi

This project models six parts of libzvbi and its programs whose behaviour depends on whole sequences of
events, and proves what they keep, compute and deliver. Every method of a class below changes
the same fields as the C function it stands for, in the same order of branches, and is proved
against a function on values; the theorems are about these functions and about runs of them.

| part | source | modules |
|---|---|---|
| Teletext page cache | `vbi/src/cache.c` | LinkedLists, PageCache, PageEviction, CacheNetworks, CachePages, CachePut, CacheRecency, CacheKeys, CacheRuns, CacheWitnesses, TeletextCache |
| frame queue of the VBI proxy | `vbi/daemon/proxyd.c` | QueueCounts, QueueRuns, FrameQueue |
| channel token of the VBI proxy | `vbi/daemon/proxyd.c` | ChannelToken |
| ATSC caption decoder | `vbi/contrib/atsc-cc.c` | StartCodes, VideoEsDecoder, CaptionReorder, PacketRing, Crc, CaptionScreen, CaptionDecoder, CaptionBits, CaptionMemory |
| recorder controlled by labels | `vbi/examples/pdc2.c` | Recorder, RecorderRuns, RecorderRules, VideoRecorder |
| DVB subtitle pixels | `vbi/contrib/dvbsubs.c` | PixelCodes, BitFields, PixelDecoders |
| BCD arithmetic | `vbi/src/bcd.h` | Bcd |

The classes are `TeletextCache`, `Device` (with `Client` and `Buffer`), `Server`, `Decoder` (of the
video stream and of the reordering), `Table`, `CcChannel`, `CcDecoder`, `Recorder`,
`NibbleDecoder` and `BitStream`. The two threads of the packet ring, the clients of the proxy
and the recorder are state machines as well, so that a theorem can speak of every run.

`dafny verify dfyconfig.toml` checks all of it.

## Findings

Some properties the program is meant to have do not hold on all inputs. For each the exact
condition is proved, and an input on which the property fails.

- Page cache, storing a page: a single page is written over in place if its size is all that is
  missing, and the accounting is right only if memory was used up before (`CachePut.PutIsSafe`,
  `CacheWitnesses.SmallerPageOverwritten`).
- Page cache, looking for room: the second scan may choose pages the first scan has chosen
  (`CachePut.NoPageTwice`, `CacheWitnesses.PageDeletedTwice`), and whether there is enough room is
  checked before a page is looked at, so that the last page of the list may be overlooked
  (`CachePut.RoomIsFound`, `CacheWitnesses.RoomOverlooked`).
- Page cache, decimal page numbers: a page without subpages, or a clock page, replaces whichever
  version was used last, so that two versions of one key may be live
  (`CacheKeys.VersionsRepeat`, `CacheWitnesses.TwoVersionsOfOneKey`). Hex pages do not have this
  problem (`CacheKeys.PutKeepsHexUnique`).
- Proxy, frame queue: a client that has frames pending may lose its services when another client changes
  its own. The invariant is kept exactly if that does not happen (`QueueRuns.StepKeeps`). If it does, the
  counts of the next buffers are wrong (`QueueCounts.EnqueueKeeps`, `QueueCounts.PendingButIneligible`),
  or acquisition stops and the client is left with a buffer that is gone (`QueueRuns.ClientIsStranded`).
- Proxy, forced drop: with a single buffer it fails if the last client does not wait for it, or a client
  of another device comes after that one (`QueueCounts.ForceOfLastBuffer`, `QueueCounts.LastBufferFails`);
  the allocation of two buffers or more prevents that (`QueueRuns.GoodInEveryRun`).
- Proxy, channel token: a client that reports the return of a token it does not have becomes a second
  owner (`ChannelToken.ReturnIsSafe`, `ChannelToken.TwoOwners`).
- Video stream: if fewer than four bytes follow a gap at once, a start code may be recognized
  of which bytes are missing (`VideoEsDecoder.BarrierIsComplete`, `VideoEsDecoder.CodeAcrossGap`).
- Reordering: captions of a field pair displayed bottom field first are swapped with those of a frame
  that follows it (`CaptionReorder.DisplayOrderRestored`, `CaptionReorder.FieldsSwapped`).
- Caption screen: a clear dirty bit means a blank row (`CaptionDecoder.FeedKeeps`), but a carriage return may
  set the bit of a blank row (`CaptionBits.CarriageReturnBits`, `CaptionBits.BitOfBlankRow`). Nothing else
  that is received makes a bit wrong (`CaptionBits.FeedExact`).
- Recorder: a new VPS label is not heard while Teletext labels are available
  (`RecorderRules.LabelsAreWatched`, `RecorderRules.VpsChangeUnnoticed`). The mask of the Teletext
  channels names the first of them four times, and a recording that loses another one does not go on
  by VPS (`RecorderRules.FallsBackToVps`, `RecorderRules.NoFallBackFromChannelOne`). A recording
  started because the signals were lost is longer than announced by the time it was prepared
  (`RecorderRules.UnseenDuration`, `RecorderRules.UnseenMinute`,
  `RecorderRules.UnseenTooLong`).
- Subtitles: the limit of each string in the older decoder is the length of the whole block, so a string
  without an end code is read beyond the block unless it is the first (`PixelDecoders.StaysInside`,
  `PixelDecoders.ReadsBehindBlock`); and a code that goes over the end is completed with what follows
  (`PixelDecoders.DecodersAgreeOnString`, `PixelDecoders.CodeCutOff`).
  In the newer decoder the call that plots is commented out; the runs it would plot are modelled.

## Model

Theorems first within each part, then the methods of the classes.

| member | source | states |
|---|---|---|
| CacheRuns.ConsistentInEveryRun | vbi/src/cache.c:950-1695 | Over any run of puts, lookups, references, network references, deletions and purges, in which puts meet the condition of CachePut.PutIsSafe: idle pages are exactly the eviction list, held pages exactly the list of referenced pages, live pages sit once in their hash chain and zombies in none, the memory used is the sum of the idle sizes and within the limit, and all cache, network and page number counters are the real counts |
| CacheRuns.HeldInEveryRun | vbi/src/cache.c:950-994 | Over any such run a page with references is neither freed nor reused nor rewritten until its own last reference is given up |
| CacheRuns.LookupInEveryRun | vbi/src/cache.c:1083-1118 | Over any such run every hash chain has the order of one plain list of the live pages, the page used last in front, and hex pages keep one live version per key |
| CacheRecency.LookupIsMostRecent | vbi/src/cache.c:1083-1118 | The first match in the hash chain is the first match in that plain list, so a lookup returns the match that was put or got last |
| CacheKeys.GetReturnsPut | vbi/src/cache.c:1486-1526 | After a put of a hex page a lookup with the low four bits of the subpage number returns the page just put |
| CacheRuns.GetReturnsPutInRuns | vbi/src/cache.c:1291-1541 | Whatever operations follow a put of a hex page, a lookup with the low four bits of its subpage number returns the page put, as long as it has not been deleted or replaced |
| CacheKeys.PutKeepsHexUnique | vbi/src/cache.c:1512-1541 | A put leaves at most one live hex page for each network, page number and low four bits of the subpage number |
| CacheKeys.HexLookup | vbi/src/cache.c:1291-1338 | A lookup of a hex page by its version returns the only live page there is |
| CacheKeys.VersionsRepeat | vbi/src/cache.c:1486-1541 | A put that succeeds, whether or not it has to make room, leaves a second live page of the same number exactly if there was one besides the page it found and those it deleted |
| CacheWitnesses.TwoVersionsOfOneKey | vbi/src/cache.c:1486-1541 | A consistent cache with subpage 5 and the page without subpages, in which receiving the latter again leaves two live pages with one key |
| CachePut.PutIsSafe | vbi/src/cache.c:1435-1695 | A put deletes no page twice and keeps the cache consistent if and only if the second scan need not go as far as a page of the first one, and a single page is written over only while memory is used up; held pages are kept, and a page returned is the new one with one reference |
| CacheWitnesses.SmallerPageOverwritten | vbi/src/cache.c:1592-1610 | A consistent cache in which a page of 100 bytes is written over one of 60 bytes, after which the accounting is wrong |
| CachePut.NoPageTwice | vbi/src/cache.c:1550-1583 | The pages chosen for deletion are distinct if and only if the second scan need not go as far as a page of the first one; nothing is chosen twice if all networks of idle pages are referenced |
| CacheWitnesses.PageDeletedTwice | vbi/src/cache.c:1550-1583 | A consistent cache with pages of 60 and 40 bytes and a limit of 100, in which the first one is chosen by both scans for a page of 100 bytes |
| CachePut.RoomIsFound | vbi/src/cache.c:1550-1590 | Room is found if and only if the page fits into what is free already, or into the limit without the last page of the list where that is a special page, with the pages of unreferenced networks counted twice |
| CacheWitnesses.RoomOverlooked | vbi/src/cache.c:1567-1590 | A page as large as the limit is refused although every other page could be deleted |
| CachePut.SizedPutFits | vbi/src/cache.c:1439-1583 | The array of twenty pages to delete does not overflow, whether room is found or not, if the new page is no more than twenty times as large as any other |
| PageEviction.SurplusIsShortest | vbi/src/cache.c:1013-1036 | The pages deleted to meet the limit are the shortest sufficient prefix of the order: pages of unreferenced networks first, then normal before special, then oldest first |
| PageEviction.PassesDeleteSurplus | vbi/src/cache.c:1013-1036 | The four passes over the list, each of which stops when the limit is met, delete exactly that prefix |
| PageEviction.WithoutSurplusKeeps | vbi/src/cache.c:1013-1036 | Afterwards the limit is met, only idle pages of the surplus are gone, and all lists and counters are right |
| CachePages.UnrefKeeps | vbi/src/cache.c:1129-1198 | Giving up a reference leaves all else in use as it was; a zombie goes with its last reference, and the limit is met again |
| CachePages.FindKeeps | vbi/src/cache.c:1083-1118 | A page is found if and only if a live page matches, and only the order of its hash chain changes |
| CachePages.GetKeeps | vbi/src/cache.c:1291-1338 | A page is returned if and only if a live page matches, with exactly one reference more |
| CacheNetworks.DeleteNetworkSound | vbi/src/cache.c:217-282 | A network goes, or is marked for deletion if and only if it is in use; its idle pages go, pages in use stay |
| CacheNetworks.UnrefNetworkKeeps | vbi/src/cache.c:720-745 | When the last reference to a network goes there are too many networks only if all are in use, and none marked for deletion is left unused |
| CacheNetworks.RecycleKeeps | vbi/src/cache.c:435-491 | A recycled network has no pages left, so that clearing its counters keeps them right |
| CacheNetworks.AddNetworkKeeps | vbi/src/cache.c:494-546 | Adding a network deletes pages only of a network nothing uses |
| CacheNetworks.PurgeKeeps | vbi/src/cache.c:292-301 | After a purge only pages and networks in use are left, all marked for deletion |
| TeletextCache.TeletextCache.DeletePage | vbi/src/cache.c:950-994 | The page and its links and counts are gone if it is idle, else it becomes a zombie |
| TeletextCache.TeletextCache.DeleteSurplusPages | vbi/src/cache.c:1013-1036 | The four loops over the eviction list leave exactly the cache without its surplus |
| TeletextCache.TeletextCache.PageByPgno | vbi/src/cache.c:1083-1118 | The first match of the chain is returned and moved to its front |
| TeletextCache.TeletextCache.PageRef | vbi/src/cache.c:1210-1249 | Takes the page from the eviction list with its first reference, and restores its network |
| TeletextCache.TeletextCache.PageUnref | vbi/src/cache.c:1129-1198 | Appends the page to the eviction list, or frees the zombie, with its last reference, then deletes the network or the surplus |
| TeletextCache.TeletextCache.GetPage | vbi/src/cache.c:1291-1338 | The cache after a lookup, and the page returned, including the rejected page numbers |
| TeletextCache.TeletextCache.PutPage | vbi/src/cache.c:1435-1695 | The cache after a put: key, version replaced, the scans for room, reuse or new memory, and the page returned |
| TeletextCache.TeletextCache.DeleteNetwork | vbi/src/cache.c:217-282 | Deletes the pages of the network and then the network, or marks it |
| TeletextCache.TeletextCache.NetworkAdd | vbi/src/cache.c:494-546 | A new or recycled network at the head of the list |
| TeletextCache.TeletextCache.PurgeAll | vbi/src/cache.c:292-301 | Deletes all networks from the tail of the list |
| QueueRuns.GoodInEveryRun | vbi/daemon/proxyd.c:405-427 | Over any run of connections, service requests, captures, sends, channel flushes and closes: every queued buffer is counted exactly as often as clients wait for it, each client gets or misses the frames offered to it once and in capture order, and a forced drop finds a second buffer in the queue |
| QueueRuns.AtMostOneIsDropped | vbi/daemon/proxyd.c:569-593 | Looking for a buffer for the next frame makes each client miss at most one frame |
| QueueRuns.NobodyLeftBehind | vbi/daemon/proxyd.c:921-938 | When no client is served nothing is queued, so acquisition stops without leaving a client with a freed buffer |
| QueueRuns.UpdatedKeeps | vbi/daemon/proxyd.c:490-562 | After an update of the services there are no buffers or at least two, no fewer than are queued, and only clients that are served have frames pending, if and only if no client loses its services with frames pending |
| QueueRuns.StepKeeps | vbi/daemon/proxyd.c:405-671 | Each handler keeps the invariant of the runs if and only if it does not take the services from a client with frames pending |
| QueueRuns.ClientIsStranded | vbi/daemon/proxyd.c:921-938 | Two clients for which acquisition stops while one has a frame pending, whose buffer is gone then |
| QueueRuns.FlushAllKeeps | vbi/daemon/proxyd.c:433-459 | A channel flush leaves exact counts; each client misses exactly what was pending, in order |
| QueueCounts.ReleaseKeeps | vbi/daemon/proxyd.c:405-427 | A count that drops to zero is always that of the head of the queue, and all counts stay exact |
| QueueCounts.EnqueueKeeps | vbi/daemon/proxyd.c:630-671 | A new buffer keeps the counts exact if and only if all clients with pending buffers are eligible |
| QueueCounts.PendingButIneligible | vbi/daemon/proxyd.c:630-671 | Two clients for which the counts become wrong: a buffer that is not at the head is taken for unused |
| QueueCounts.ForceIsExact | vbi/daemon/proxyd.c:569-593 | With at least two buffers queued a forced drop frees exactly one, although the head moves during the loop |
| QueueCounts.OthersDoNotMatter | vbi/daemon/proxyd.c:569-593 | With at least two buffers queued clients of other devices on the list make no difference to a forced drop |
| QueueCounts.ForceOfLastBuffer | vbi/daemon/proxyd.c:569-593 | With one buffer queued a forced drop works if and only if the last client of the device waits for it and no client of another device with nothing to do is behind it on the list |
| QueueCounts.LastBufferFails | vbi/daemon/proxyd.c:569-593 | Two clients of one device, and two of different devices, for which it fails |
| QueueCounts.DrainKeeps | vbi/daemon/proxyd.c:1745-1752 | A client that gives up its buffers is done with all it was offered; others have as much to do as before |
| FrameQueue.Device.ReleaseSliced | vbi/daemon/proxyd.c:405-427 | The client moves on; the assertion that only the head becomes unused holds; no buffer is lost |
| FrameQueue.Device.ForceFree | vbi/daemon/proxyd.c:569-593 | A buffer is returned unless there is none at all, and none is lost; the only buffer is dropped if the last client waits for it |
| FrameQueue.Device.ForwardData | vbi/daemon/proxyd.c:598-671 | A frame is queued for all eligible clients, after a forced drop if no buffer is free; all buffers are conserved |
| FrameQueue.Device.ReleaseAll | vbi/daemon/proxyd.c:433-459 | All queued buffers become free and no client points to one |
| FrameQueue.Device.AllocateBuffers | vbi/daemon/proxyd.c:490-562 | There are as many buffers as clients ask for plus one for each, or all those queued if these are more |
| FrameQueue.Device.TakeServiceRequest | vbi/daemon/proxyd.c:2124-2169 | The buffers of the client are flushed before its services change; the state is the next one of the runs, good if no other client loses its services with frames pending, or acquisition stops and leaves a client with a buffer that is gone |
| FrameQueue.Device.TakeConnectRequest | vbi/daemon/proxyd.c:2028-2094 | The client takes part in the queue from then on, with the same cases |
| FrameQueue.Device.FrameSent | vbi/daemon/proxyd.c:2477-2495 | The client is done with the frame |
| FrameQueue.Device.RemoveConnection | vbi/daemon/proxyd.c:2514-2540 | The client gives up its buffers and leaves the list, and the services of the others are updated, with the same cases |
| ChannelToken.OneOwnerInEveryRun | vbi/daemon/proxyd.c:1216-1672 | Over any run of token requests, notifies, reclaim confirms, sends, alarms, connects and closes in which no client reports the return of a token while another one has anything to do with it, at most one client of each device is in a token state and cycle counters stay within 0 to 2 |
| ChannelToken.TokenGrantKeeps | vbi/daemon/proxyd.c:1257-1304 | A token is granted if and only if nobody else holds it or a holder has not used or has returned it; then all others have nothing to do with it, else it is being claimed back |
| ChannelToken.UpdateKeeps | vbi/daemon/proxyd.c:1502-1594 | Rescheduling keeps the invariant; among background clients one is chosen if and only if there is a candidate, and the one the scheduler chooses is served or the token is being claimed back for it; with others nobody controls the channel |
| ChannelToken.ScheduleKeeps | vbi/daemon/proxyd.c:1410-1494 | A client is scheduled if and only if there is a candidate, and it is one |
| ChannelToken.CompletedKeepsCycles | vbi/daemon/proxyd.c:1309-1344 | Cycle counters stay within 0 to 2 although a client may hop from 0 to 2 |
| ChannelToken.ReturnIsSafe | vbi/daemon/proxyd.c:2235-2241 | Noting a returned token keeps the owner unique if and only if nobody else has anything to do with the token, which a conforming client ensures |
| ChannelToken.TwoOwners | vbi/daemon/proxyd.c:2235-2241 | A client without the token reports its return, and there are two owners |
| ChannelToken.TimerKeeps | vbi/daemon/proxyd.c:1631-1672 | Rescheduling after an alarm keeps the invariant on all devices |
| ChannelToken.Server.GetTokenOwner | vbi/daemon/proxyd.c:1216-1248 | The only client of the device in a token state is found, the assertion that there is no second one holds |
| ChannelToken.Server.GrantToken | vbi/daemon/proxyd.c:1257-1304 | The tokens and the answer are those of the decision table |
| ChannelToken.Server.ChannelSchedule | vbi/daemon/proxyd.c:1410-1494 | One walk over the clients completes expired reservations and finds the preferred candidate; another client in control is stopped |
| ChannelToken.Server.ChannelUpdate | vbi/daemon/proxyd.c:1502-1594 | The clients and the answer after rescheduling |
| ChannelToken.Server.TakeTokenRequest | vbi/daemon/proxyd.c:2173-2201 | TRUE only if the client holds the token alone |
| ChannelToken.Server.TakeNotify | vbi/daemon/proxyd.c:2202-2260 | The clients after a flush, a release or the return of the token |
| ChannelToken.Server.ChannelTimer | vbi/daemon/proxyd.c:1631-1672 | Devices of background clients only, where a reservation has expired and there is another client, are rescheduled |
| VideoEsDecoder.Decode | vbi/contrib/atsc-cc.c:7186-7319 | However a stream is divided into pieces, the blocks are those of a greedy search of the whole stream in which only positions just before a gap are blocked. If four bytes or more follow each gap at once the blocks depend only on the bytes and the gaps: the stream is cut at all start codes that arrived, together with the byte behind them, without a gap, except inside another one, and nowhere else; the blocks put together are the stream from the first cut to the last; and it fails if and only if a pending block and a piece exceed the buffer |
| VideoEsDecoder.Decoder.Feed | vbi/contrib/atsc-cc.c:7216-7319 | After each piece the blocks emitted are those the greedy cut of the whole stream gives, with gaps and capacity as in the program |
| VideoEsDecoder.Decoder.MakeRoom | vbi/contrib/atsc-cc.c:7186-7213 | Room is made by moving what is not consumed to the start, if and only if that is enough |
| VideoEsDecoder.BarrierIsComplete | vbi/contrib/atsc-cc.c:7234-7262 | No start code can straddle a gap if and only if the search looks beyond the gap at once or has passed it, in particular with four more bytes |
| VideoEsDecoder.CodeAcrossGap | vbi/contrib/atsc-cc.c:7234-7262 | Fewer bytes behind a gap: a start code is recognized although bytes are missing in it |
| CaptionReorder.DisplayOrderRestored | vbi/contrib/atsc-cc.c:6684-6771 | Captions of frames and field pairs fed in coded order come out in display order, with only the last anchor held back, if and only if no field pair displayed in the other order precedes |
| CaptionReorder.UniformIsInOrder | vbi/contrib/atsc-cc.c:6684-6771 | Frames alone, and field pairs of one field order, meet this condition |
| CaptionReorder.FieldsSwapped | vbi/contrib/atsc-cc.c:6684-6771 | A pair with the bottom field first, then a frame: the two captions come out swapped |
| CaptionReorder.OnlyFiveStates | vbi/contrib/atsc-cc.c:858-863 | Whatever pictures arrive only the states 0 to 4 occur |
| CaptionReorder.Decoder.ReorderDecode | vbi/contrib/atsc-cc.c:6684-6771 | What is held back and what is passed on, for each picture structure |
| CaptionReorder.Decoder.Feed | vbi/contrib/atsc-cc.c:6891-6919 | I and P pictures are held back, B pictures are passed on only when a complete anchor is held |
| PacketRing.EveryInterleavingIsFifo | vbi/contrib/atsc-cc.c:7878-7935 | For every interleaving of the two threads, byte by byte, the decoder has read a prefix of the packets accepted, intact and in order; equal offsets mean empty; one slot stays unused |
| PacketRing.NoTornPacket | vbi/contrib/atsc-cc.c:7594-7641 | While a packet is being read no step of either thread changes a byte of it |
| PacketRing.WritesOnlyFreeSlot | vbi/contrib/atsc-cc.c:7878-7935 | No step writes to a slot whose packet has not been removed, even half-way through a packet |
| PacketRing.LossIsFlagged | vbi/contrib/atsc-cc.c:7912-7921 | The first packet accepted after an overflow carries the error bit |
| PacketRing.NoLossNoFlag | vbi/contrib/atsc-cc.c:7912-7921 | Without an overflow since the last accepted packet a packet arrives as it was received |
| PacketRing.RefusedExactlyWhenFull | vbi/contrib/atsc-cc.c:7908-7916 | A packet is refused if and only if the ring was full when the capture thread read the other index |
| Crc.FeedBytesIsSerial | vbi/contrib/atsc-cc.c:6427-6462 | The table-driven check value is that of the bit-serial shift register for every byte string |
| Crc.AppendedCrcGivesZero | vbi/contrib/atsc-cc.c:6527-6531 | Four appended bytes make the check value zero if and only if they are the check value, high byte first |
| Crc.BurstIsDetected | vbi/contrib/atsc-cc.c:6427-6462 | Messages that differ only within four consecutive bytes have different check values |
| Crc.Table.Mpeg2Crc | vbi/contrib/atsc-cc.c:6427-6462 | With a table filled when first needed the result is the bit-serial check value |
| Crc.Table.InitPat | vbi/contrib/atsc-cc.c:6537-6589 | The packet built has all fields of the association section, its check value makes the section check to zero, and the rest is padding |
| CaptionScreen.CarriageReturnRolls | vbi/contrib/atsc-cc.c:2829-2932 | In roll-up mode a carriage return drops the first line of the window and appends a blank one |
| CaptionScreen.PreambleKeepsLines | vbi/contrib/atsc-cc.c:3420-3542 | Moving the base row keeps the lines, with blank lines above if more fit |
| CaptionScreen.RollUpKeepsLast | vbi/contrib/atsc-cc.c:3059-3144 | Another window height keeps the last lines; entering roll-up mode starts with blank ones |
| CaptionBits.FeedExact | vbi/contrib/atsc-cc.c:3700-3860 | If all dirty bits say exactly which rows are not blank, a byte pair keeps them so if and only if it is not a carriage return that is acted upon in roll-up mode, with text in the top row of a window below the top of the screen |
| CaptionBits.CarriageReturnBits | vbi/contrib/atsc-cc.c:2829-2932 | A carriage return in roll-up mode keeps the bits exact if and only if the window begins at the top of the screen or its top row is blank |
| CaptionBits.ExactInRuns | vbi/contrib/atsc-cc.c:3700-3860 | Dirty bits are exact in every run without such a carriage return |
| CaptionBits.BitOfBlankRow | vbi/contrib/atsc-cc.c:2911-2928 | Text in row 13 of a window of two rows at the bottom: after a carriage return the bit of row 12, which is blank, is set |
| CaptionDecoder.FeedKeeps | vbi/contrib/atsc-cc.c:3700-3860 | Whatever is received, a clear dirty bit means a blank row, text in roll-up mode stays in the window, exactly channels 5 to 8 are in text mode and the channel in use belongs to its field |
| CaptionDecoder.FieldsDoNotInterfere | vbi/contrib/atsc-cc.c:3700-3860 | For any interleaving of the two fields the channels of a field end as if only the pairs of that field had been fed |
| CaptionDecoder.RepeatsIgnored | vbi/contrib/atsc-cc.c:3741-3799 | Of n identical control pairs in succession half, rounded up, are acted upon |
| CaptionMemory.CcChannel.PutChar | vbi/contrib/atsc-cc.c:2600-2681 | The buffers, the dirty bits and the cursor after a character, an attribute or a backspaced character |
| CaptionMemory.CcChannel.CarriageReturn | vbi/contrib/atsc-cc.c:2829-2932 | The buffers after a carriage return in each mode, with the rows moved in place |
| CaptionMemory.CcChannel.Shift | vbi/contrib/atsc-cc.c:3420-3473 | Overlapping rows are copied and those left behind cleared, so that the buffer is the moved window |
| CaptionMemory.CcChannel.ResizeWindow | vbi/contrib/atsc-cc.c:3059-3090 | The rows that leave the window are cleared |
| CaptionMemory.CcChannel.RollUpCaption | vbi/contrib/atsc-cc.c:3093-3144 | The channel after a roll-up command |
| CaptionMemory.CcChannel.Preamble | vbi/contrib/atsc-cc.c:3476-3542 | The channel after a preamble address code |
| CaptionMemory.CcDecoder.Feed | vbi/contrib/atsc-cc.c:3700-3860 | All channels, the channel in use, the pending code and the answer after a byte pair |
| RecorderRuns.ValidInEveryRun | vbi/examples/pdc2.c:311-1646 | Over any run of frames, labels, signal checks and sleeps, whatever the schedule: timer control excludes preparing, preparing and recording have their program on the schedule, a planned stop implies recording and is due in 31 seconds at most; hence no assertion fires. If the programs have labels and end no earlier than they start, the label in use names the program |
| RecorderRuns.WatchIsRun | vbi/examples/pdc2.c:1519-1646 | Whatever the standby and capture loops do from start to end is such a run |
| RecorderRules.NoProgramIsLost | vbi/examples/pdc2.c:311-349 | At the end of a run each program is on the schedule with its label and no less time to record, or it was recorded, or it was over when the recorder slept |
| RecorderRules.ReceivedStarts | vbi/examples/pdc2.c:721-868 | A label starts a recording only if it names the program and PRF is clear or has been set for a minute; the loss of the service starts one that was about to begin |
| RecorderRules.OnceASecondStarts | vbi/examples/pdc2.c:948-1085 | Otherwise a recording begins only in timer control, at its scheduled time or when all signals are lost |
| RecorderRules.ResumeUndoesStop | vbi/examples/pdc2.c:721-868 | The label returns before a planned stop: as if nothing had happened |
| RecorderRules.LabelEndsRecording | vbi/examples/pdc2.c:681-868 | Under label control a label ends the recording, or plans to, if and only if it comes on its channel and is another one |
| RecorderRules.LabelsAreWatched | vbi/examples/pdc2.c:871-927 | A change of the label is noticed if and only if it is not a VPS label while Teletext labels are available |
| RecorderRules.WatchedInRuns | vbi/examples/pdc2.c:871-927 | In every run without such a change the label in use is the last one seen on its channel |
| RecorderRules.VpsChangeUnnoticed | vbi/examples/pdc2.c:871-927 | A recording by VPS goes on after VPS has changed to another program |
| RecorderRules.LabelIsFresh | vbi/examples/pdc2.c:1006-1085 | After each check of the signals the label of a recording has been received in time, or a stop is planned, or it is no longer recorded by label |
| RecorderRules.FallsBackToVps | vbi/examples/pdc2.c:1006-1085 | A recording whose Teletext channel is lost goes on by VPS if and only if the first Teletext channel is among those lost |
| RecorderRules.NoFallBackFromChannelOne | vbi/examples/pdc2.c:1008-1012 | A recording on channel 1 that stops although VPS carries its label |
| RecorderRules.UnseenDuration | vbi/examples/pdc2.c:542-608 | A recording started because the signals were lost lasts for the planned time, one minute, and the time it was prepared |
| RecorderRules.UnseenMinute | vbi/examples/pdc2.c:542-590 | That is one minute after PRF was set if and only if PRF was set just now |
| RecorderRules.UnseenTooLong | vbi/examples/pdc2.c:542-590 | A program of ten minutes prepared for 40 seconds ends 80 seconds later than that |
| VideoRecorder.Recorder.ReceivedPil | vbi/examples/pdc2.c:721-868 | The recorder after a label, with the assertions of the handler |
| VideoRecorder.Recorder.PdcSignalCheck | vbi/examples/pdc2.c:1006-1085 | The recorder after a check of the signals |
| VideoRecorder.Recorder.TimerControl | vbi/examples/pdc2.c:948-1003 | The recorder after timer control, with its assertions |
| VideoRecorder.Recorder.StandbyLoop | vbi/examples/pdc2.c:1584-1646 | The recorder after all sleeps and captures |
| PixelDecoders.DecodersAgreeOnString | vbi/contrib/dvbsubs.c:322-417 | Both decoders yield the same runs and stop at the same byte on every string whose codes do not go over its end; else the half byte decoder goes on behind the end and the other gives up |
| PixelDecoders.CodeCutOff | vbi/contrib/dvbsubs.c:322-417 | A string of one byte in which the longest code begins: one decoder takes two bytes more for it, the other gives up |
| PixelDecoders.DecodersDraw | vbi/contrib/dvbsubs.c:1317-1499 | Both decoders draw every picture encoded line by line, whatever bytes come before and behind it, if behind it there are more than its own length (the half byte decoder may be asked for them) |
| PixelDecoders.StaysInside | vbi/contrib/dvbsubs.c:322-448 | A string is read no further than its block if and only if it is terminated within the block, or ends with the block and is the first one of it |
| PixelDecoders.ReadsBehindBlock | vbi/contrib/dvbsubs.c:420-448 | A block of two strings, the second one without an end code, with which the half byte decoder plots a pixel from behind the block and the other decoder does not |
| PixelCodes.StringRoundTrip | vbi/contrib/dvbsubs.c:1317-1371 | A string put anywhere decodes to its runs and ends at the byte where it ends |
| PixelCodes.LooseIsParse | vbi/contrib/dvbsubs.c:342-416 | Not checking the end within a code gives the same result if and only if no code goes over the end; else exactly one code more is taken |
| PixelDecoders.NibbleDecoder.Decode4BitPixelCodeString | vbi/contrib/dvbsubs.c:322-417 | What is plotted, and the position after alignment |
| PixelDecoders.NibbleDecoder.ProcessPixelDataSubBlock | vbi/contrib/dvbsubs.c:420-448 | The items of a sub-block, with the length of the block as the limit of each string |
| PixelDecoders.BitStream.GetBits | vbi/contrib/dvbsubs.c:1193-1220 | The next bits, the first one most significant, or nothing if there are not enough |
| PixelDecoders.BitStream.RealignBitStream | vbi/contrib/dvbsubs.c:1223-1229 | The next multiple |
| PixelDecoders.BitStream.FourBitPixelCodeString | vbi/contrib/dvbsubs.c:1317-1371 | The runs up to the end of the string or the code that is cut off, and whether one is |
| PixelDecoders.BitStream.PixelDataSubBlockLoop | vbi/contrib/dvbsubs.c:1441-1499 | The items of a sub-block up to the place where it gives up, and whether it got to the end |
| Bcd.AddBcdAdds | vbi/src/bcd.h:158-170 | Addition by carry correction is signed ten's complement decimal addition: the result is well formed if and only if the sum is from -10^7 to 10^7 - 1, and then has that value |
| Bcd.IsBcdMeansDecimal | vbi/src/bcd.h:182-188 | True if and only if all of the low seven digits are decimal |
| Bcd.DigitsGreaterMeansSome | vbi/src/bcd.h:205-212 | True if and only if one of the low seven digits exceeds that of the maximum |
| Bcd.ToBcdAndBack | vbi/src/bcd.h:108-112 | A binary number converted to BCD and back is the number modulo 1000 |
| Bcd.FromBcdAndBack | vbi/src/bcd.h:132-136 | A BCD number converted to binary and back is its low three digits |

## Left out

- PutPage: expects that no page is chosen twice, which would be deleted twice, and that the array of twenty pages does not overflow, which an assertion of the program forbids; `PutIsSafe` and `SizedPutFits` say when that is so.
- ForceFree: a single queued buffer is dropped where the last client waits for it and no clients of other devices are on the list; `ForceOfLastBuffer` has the exact condition for the whole list.
- OneOwnerInEveryRun: no client reports the return of a token while another one has anything to do with it, a condition the daemon does not check; `ReturnIsSafe` shows that it is exact.
- WatchedInRuns: no change of the VPS label goes unheard in the run.
- Page cache: pages are entries of a map from addresses, and the two page lists and the hash chains are sequences; the nodes of the linked lists in `dlist.h` are not modelled.
- Page cache: `_vbi_cache_foreach_page`, the memory limit setter, adding a network whose identity is known already, subpage statistics other than those a put reads, network names, logging and event handlers.
- Page cache: the content of a page is one opaque value and its size a number.
- Proxy: sockets, message layouts, threads, `select` and `ioctl` calls; each handler is one atomic step, and a time that it asks for more than once is the same.
- Proxy, frame queue: changes of the number of lines a buffer can hold, running out of memory, and a failing start of the acquisition.
- Proxy, channel token: priorities negotiated with the video device and the alarm that is armed; both appear as inputs of the steps.
- Caption decoder: the CEA 708 interpreter, XDS contents, the programme map section (built like the association section), caption events, time stamps, the history of errors and the rendering of captions.
- Video stream: what is inside a block.
- Recorder: calendar conversion, the test file, VBI capture, and leaving the program; times are real numbers and not doubles.
- Subtitles: the position of a pixel, the CLUT, strings of 2 and 8 bit codes, and the segments around the objects.
- Integer widths: 32 bit words are modelled in `Bcd` and `Crc` and 8 bit ones in the byte streams; elsewhere counters and sizes do not wrap around.
