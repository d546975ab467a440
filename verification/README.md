# Verified model of the ARP host and of its packet-capture examples

The repository is an ARP host for Windows: a dialog above a small stack of protocol layers
(dialog, IP, ARP, Ethernet, network interface), together with the WinPcap example programs
it was built from. This project models the parts where its behaviour is decided, in the
form the program has, and proves what they promise.

* **The layer-layout compiler** (`LayoutTokens`, `LayoutLinks`, `LayoutSpacing`, `DialogLayout`, `LayerManager`).
  `ConnectLayers` reads a text such as `NI ( *Ethernet ( *Network ( *Dlg  -ARP ) *ARP ) )`, cuts it
  into a linked list of tokens and interprets the list with a stack, linking the named layers.
  The class `LayerManager.LayerManager` is that code, on heap nodes and fixed arrays; the
  modules before it give its meaning on values. Main results: printing a layer tree and connecting
  the text makes exactly the edges of the tree, on the heap too; the exact nesting depth and the exact
  placing of extra spaces for which this holds; and what the dialog's own layout wires up.
* **The capture-buffer walker and dumper** (`CaptureBuffer`, `HexDump`, `NameList`). Variable-length,
  word-aligned records are walked and printed; the walk inverts the layout of the records and the
  printed dump can be read back. The adapter-name list is split in place in a two-dimensional array.
* **The two-thread bridge** (`Bridge`). Two threads forward packets in opposite directions, share a
  console lock and watch a flag that CTRL+C sets. All interleavings are covered: a schedule says
  which thread steps next, what each read and send returns and when CTRL+C comes. The thread is
  also given as the loop it is.
* **The ARP table, its view and the dialog** (`ArpTable`, `ArpView`, `ArpDialog`, with the hardware addresses of `MacAddress`). Classes with the
  fields of the program, each method proved against a function on states; then runs of events are
  shown to keep the session, the view and the table consistent.
* **Three pieces of arithmetic**: the rotating buffers of `iptos` (`Iptos`, `DottedDecimal`), the rate
  samples of `tcptop` (`RateMeter`), with the conversions all of them print with (`Text`) and searching in
  sequences (`Sequences`).

Pointers into a C string are offsets, and the string is its characters before the NUL. Integer widths
are explicit: `Text.U32`, `Text.Signed32` and `Text.Signed64` are the conversions, and signed operations
wrap around as the compiler of the repository makes them. Operations that would be undefined (division
by zero, a write behind an array) are excluded by a precondition or are outcomes of their own
(`Overrun`, `NullParent`). The clock, the keyboard, the capture library
and the adapters are parameters.

The bodies of the base, IP and ARP layers (`ARP/BaseLayer.cpp`, `ARP/IPLayer.cpp`, `ARP/ARPLayer.cpp`) are
in files in a Korean encoding (EUC-KR). In the table below, rows about them cite the declaration, the
constant or the call that reaches the body, and name the lines of the body in the last column.

## What the proofs found

* `Push` compares the index of the top, not the number of entries, with 255; the 256th nested group
  writes behind `mp_Stack` (`TooDeep`). Trees link correctly if and only if they nest at most 255 deep.
* An extra space in a layout repeats the token after it. Before a `-` item that is harmless; before a
  `*` or `+` item it enters the layer twice above its parent (`ExtraSpaceHarms`). The dialog's own double
  space is harmless.
* `CARPLayer::Receive` looks a request's sender up by hardware address among IP addresses, so a second
  request from one host enters its address a second time. `RequestKeepsUnique` gives the exact condition.
  Deleting such an address removes only its first entry: the row comes back with the next tick if and only if
  a later entry has the address (`DeletedStillThere`, `DeletedRowReturns`).
* Selecting adapters makes the addresses in the fields the host's own, but announces the addresses
  the adapters report; `AnnouncesOwnAddress` says exactly when these are the same,
  and `ChoosingThenSelecting` which runs lead to it.
* The rates of `tcptop` are exact if and only if a sample has at most 1152921504606 bytes and 9223372036854
  packets; one byte more makes a rate negative (`OneByteTooMany`).
* `Packet_WORDALIGN` wraps around to 0 for exactly the last three 32-bit values.

## Model

| member | source | states |
|---|---|---|
| LayoutTokens.TokensAreFieldRuns | ARP/LayerManager.cpp:63-74 | MakeList appends one token more than there are spaces; the token of the field that starts at f is the first non-blank run at or after f, and is missing only if nothing but blanks follows |
| LayoutTokens.EveryScanSucceeds | ARP/LayerManager.cpp:63-74 | every scan stores a token if and only if some non-blank character has no space after it |
| LayoutTokens.ReadingBack | ARP/LayerManager.cpp:63-74 | tokenising a printed layout gives its words, each once more than there are extra spaces before it; single-spaced texts split exactly |
| LayoutLinks.WireIsProjection | ARP/BaseLayer.h:24-44 | after any sequence of link calls a layer's upper layers are the old ones followed by its `*` and `+` children in order, and the layer under it is the one set last, or the old one (body: ARP/BaseLayer.cpp:51-93) |
| LayoutLinks.LookupIsFirst | ARP/LayerManager.cpp:44-53 | a name is resolved to the first registered layer that has it, and to none if and only if no layer has it |
| LayoutLinks.TreeLinks | ARP/LayerManager.cpp:144-176 | running LinkLayer on a printed tree makes exactly one call per linked node, in preorder, on its parent with its mode, and empties the stack, if the groups nest at most 255 deep; otherwise it writes behind the stack |
| LayoutLinks.TooDeep | ARP/LayerManager.cpp:101-112 | 256 groups inside one another write behind the stack |
| LayoutLinks.AfterUnknownName | ARP/LayerManager.cpp:148-175 | the token after a name that is not registered is read as the start of a new chain: it becomes the current layer and is not linked |
| LayoutLinks.StackIsOpenPath | ARP/LayerManager.cpp:101-176 | after every prefix of a printed tree the stack is the path of the open groups from the root down; it stays within 255 entries, and is not empty at any token after the root other than "(" |
| LayoutLinks.TreeTextLinks | ARP/LayerManager.cpp:55-176 | the same from the text: tokenising the single-spaced print of a tree gives its tokens back, and linking them makes exactly its edges if it nests at most 255 deep, and overruns the stack otherwise |
| LayoutSpacing.StepTwice | ARP/LayerManager.cpp:165-170 | repeating a `-` item, or an item without a link mode, leaves stack, current layer and wiring as one round does |
| LayoutSpacing.ExtraSpaces | ARP/LayerManager.cpp:63-176 | for layouts with extra spaces before items, the wiring is that of the single-spaced layout if and only if no extra space stands before a `*` or `+` item |
| LayoutSpacing.ExtraSpaceHarms | ARP/LayerManager.cpp:63-176 | in the layout with one item `*A` in one group, one extra space before it changes the wiring |
| DialogLayout.DialogWiring | ARP/ARPDlg.cpp:76-82 | on any five different layers and any wiring before, the dialog's own layout, double space included, empties the stack, appends Network and then ARP above Ethernet, Ethernet above the interface and the dialog above Network, puts ARP under Network, and changes nothing else of any layer |
| DialogLayout.ConnectDialog | ARP/ARPDlg.cpp:61-83 | the same on the heap: registering the dialog's five layers and connecting its layout leaves each of them with exactly these pointers above and below |
| LayerManager.BaseLayer.SetUpperLayer | ARP/BaseLayer.h:26 | appends the layer, or does nothing for NULL (body: ARP/BaseLayer.cpp:67-79) |
| LayerManager.BaseLayer.SetUnderLayer | ARP/BaseLayer.h:25 | replaces the layer below, or does nothing for NULL (body: ARP/BaseLayer.cpp:81-93) |
| LayerManager.BaseLayer.SetUpperUnderLayer | ARP/BaseLayer.h:24 | links both ways: the argument is appended above this layer and this layer becomes the one under it; nothing for NULL (body: ARP/BaseLayer.cpp:51-65) |
| LayerManager.LayerManager.constructor | ARP/LayerManager.cpp:20-27 | a new manager has an empty stack, list and table |
| LayerManager.LayerManager.AddLayer | ARP/LayerManager.cpp:34-37 | registers the layer behind the others |
| LayerManager.LayerManager.GetLayer | ARP/LayerManager.cpp:44-53 | the first registered layer with the name, or NULL |
| LayerManager.LayerManager.AllocNode | ARP/LayerManager.cpp:76-85 | a new node with the token and no successor |
| LayerManager.LayerManager.AddNode | ARP/LayerManager.cpp:87-98 | the constant-time append refines sequence append: the chain from the head stays acyclic, holds the old nodes and then the new one, and the tail pointer is its last node |
| LayerManager.LayerManager.Push | ARP/LayerManager.cpp:101-112 | pushes onto the path held in the array, if an entry is left |
| LayerManager.LayerManager.Pop | ARP/LayerManager.cpp:114-129 | removes and returns the last entry; NULL and no change on an empty stack |
| LayerManager.LayerManager.Top | ARP/LayerManager.cpp:131-142 | the last entry, or NULL |
| LayerManager.LayerManager.MakeList | ARP/LayerManager.cpp:63-74 | terminates and appends exactly the tokens of the text to the list |
| LayerManager.LayerManager.LinkItem | ARP/LayerManager.cpp:165-170 | the setter chosen by the mode changes the layers' pointers by exactly one link, or not at all for NULL and for other modes |
| LayerManager.LayerManager.LinkBracket | ARP/LayerManager.cpp:154-157 | an opening bracket pushes the current layer, a closing one pops |
| LayerManager.LayerManager.LinkNamed | ARP/LayerManager.cpp:160-170 | the named layer becomes the current one and is linked to the top of the stack |
| LayerManager.LayerManager.LinkToken | ARP/LayerManager.cpp:148-175 | one round on the heap is one step of the stack machine, and changes the layers' pointers by the call that step makes |
| LayerManager.LayerManager.LinkLayer | ARP/LayerManager.cpp:144-176 | the traversal terminates, leaves the stack of the machine's run, and changes the layers' pointers by exactly its calls |
| LayerManager.LayerManager.ConnectLayers | ARP/LayerManager.cpp:55-61 | appends the text's tokens and then interprets the whole list, including what an earlier call left in it |
| LayerManager.LayerManager.ConnectTree | ARP/LayerManager.cpp:55-176 | the round trip on the heap: connecting the text of a tree on a new manager adds exactly the tree's edges to the layers' pointers and leaves the stack empty |
| Text.SignedReadsBack | ARP/WpdPack/Examples-remote/PacketDriver/TestPacketCapture/TestPacketCapture.c:206 | printing an unsigned length with `%ld` loses nothing: converting back gives the length |
| Text.HexReadsBack | ARP/WpdPack/Examples-remote/PacketDriver/TestPacketCapture/TestPacketCapture.c:220 | k hexadecimal digits of a number below 16^k read back as the number |
| Text.DecimalReadsBack | ARP/WpdPack/Examples-pcap/iflist/iflist.c:145 | the decimal text of a byte consists of digits and reads back as the byte |
| HexDump.LineColumns | ARP/WpdPack/Examples-remote/PacketDriver/TestPacketCapture/TestPacketCapture.c:215-238 | line i shows offset 16 i in 8 digits, and a hex column always 48 wide that reads back as the line's bytes; no line feed among its characters but the last |
| HexDump.LineIsRight | ARP/WpdPack/Examples-remote/PacketDriver/TestPacketCapture/TestPacketCapture.c:215-238 | character by character: eight digits that read as the offset, for every byte its two lower-case digits and a blank in columns 11+3k to 13+3k, blanks up to column 59, and in column 59+k the byte's own character if it is from 0x20 to 0x7e and a dot otherwise |
| HexDump.DumpIsLines | ARP/WpdPack/Examples-remote/PacketDriver/TestPacketCapture/TestPacketCapture.c:209-238 | every line of the dump of a packet is such a line: bytes 16 i and following, at offset 16 i |
| HexDump.DumpReadsBack | ARP/WpdPack/Examples-remote/PacketDriver/TestPacketCapture/TestPacketCapture.c:209-238 | parsing the dump of a packet gives its captured bytes, each once and in order |
| HexDump.DumpLines | ARP/WpdPack/Examples-remote/PacketDriver/TestPacketCapture/TestPacketCapture.c:209-238 | the dump of n bytes has ceil(n / 16) line feeds |
| HexDump.PrintCells | ARP/WpdPack/Examples-remote/PacketDriver/TestPacketCapture/TestPacketCapture.c:226-227 | the loop prints, for each byte of the line in order, its two digits and a blank |
| HexDump.PrintAscii | ARP/WpdPack/Examples-remote/PacketDriver/TestPacketCapture/TestPacketCapture.c:234-235 | the loop prints, for each byte of the line in order, its own character if that is printable and a dot otherwise |
| HexDump.PrintLine | ARP/WpdPack/Examples-remote/PacketDriver/TestPacketCapture/TestPacketCapture.c:218-237 | prints the line that LineColumns describes |
| HexDump.PrintLines | ARP/WpdPack/Examples-remote/PacketDriver/TestPacketCapture/TestPacketCapture.c:209-238 | the loop prints the dump of the packet, the text that reads back as its bytes and whose every line shows them in both columns; the unsigned count of bytes still to print reaches exactly 0 |
| CaptureBuffer.WordAlignIsRoundUp | ARP/WpdPack/Include/Packet32.h:71-74 | the bit expression is the least multiple of 4 not below x for x up to 2^32-4, and 0 above; it is not below x exactly up to there |
| CaptureBuffer.FieldsOfEncoding | ARP/WpdPack/Include/Packet32.h:150-162 | the fields read at the start of a laid-out record are those it was made of |
| CaptureBuffer.WalkEndsClose | ARP/WpdPack/Examples-remote/PacketDriver/TestPacketCapture/TestPacketCapture.c:201-213 | if no record reaches past the received bytes, the walk stops at most 3 bytes past them |
| CaptureBuffer.WalkRecovers | ARP/WpdPack/Examples-remote/PacketDriver/TestPacketCapture/TestPacketCapture.c:199-213 | walking any sequence of laid-out records recovers their captured bytes and lengths, all of them, once and in order, whether or not the last padding was received |
| CaptureBuffer.ReportReadsBack | ARP/WpdPack/Examples-remote/PacketDriver/TestPacketCapture/TestPacketCapture.c:206-240 | parsing the text of a report, first lines, dumps and blank lines, gives the lengths and the captured bytes of every record, in order |
| CaptureBuffer.PrintRecord | ARP/WpdPack/Examples-remote/PacketDriver/TestPacketCapture/TestPacketCapture.c:203-240 | one round prints the record's first line, dump and blank line, and the 32-bit offset arithmetic reaches the next word boundary after it without wrapping |
| CaptureBuffer.PrintPackets | ARP/WpdPack/Examples-remote/PacketDriver/TestPacketCapture/TestPacketCapture.c:184-242 | prints the report of the walk's records in order, all of them or those before the first poll that finds a key pressed; the printed text parses back to exactly these records |
| NameList.JoinedIsAt | ARP/WpdPack/Examples-remote/PacketDriver/TestPacketCapture/TestPacketCapture.c:85-91 | where a joined name list starts, its names lie one after the other, each with its NUL, before the final NUL, whatever follows |
| NameList.StoreName | ARP/WpdPack/Examples-remote/PacketDriver/TestPacketCapture/TestPacketCapture.c:96 | the copy makes the next row the name, as a C string, and changes no other character of the array |
| NameList.SplitNames | ARP/WpdPack/Examples-remote/PacketDriver/TestPacketCapture/TestPacketCapture.c:89-103 | splitting a joined list of 1 to 10 names gives the same names in order and their number, whatever follows the first double NUL |
| DottedDecimal.FormatParses | ARP/ARPDlg.cpp:367 | scanning the text of an address gives the address back (body: ARP/ARPLayer.cpp:315-342) |
| DottedDecimal.FormatIs | ARP/ARPDlg.cpp:367 | the text is the four bytes in decimal, first byte first, with dots between them (body: ARP/ARPLayer.cpp:315-320) |
| DottedDecimal.FormatInjective | ARP/ARPDlg.cpp:367 | two addresses have the same text if and only if they are equal (body: ARP/ARPLayer.cpp:315-320) |
| MacAddress.MacTextIs | ARP/ARPDlg.cpp:368 | a hardware address is printed as two lower-case hexadecimal digits per byte, first byte first, with colons between them (body: ARP/ARPLayer.cpp:322) |
| MacAddress.MacParses | ARP/ARPDlg.cpp:368 | scanning the text of a hardware address gives the address back (body: ARP/ARPLayer.cpp:315-342) |
| Iptos.TextIsAddress | ARP/WpdPack/Examples-pcap/iflist/iflist.c:143-145 | the text shows the bytes in memory order, lowest first; scanning it and reading the bytes as a little-endian number gives the address back |
| Iptos.Loopback | ARP/WpdPack/Examples-pcap/iflist/iflist.c:143-145 | the address with lowest byte 127, highest 1 and 0 between is printed as 127.0.0.1 |
| Iptos.TextsFit | ARP/WpdPack/Examples-pcap/iflist/iflist.c:139-145 | every text has 7 to 15 characters and no NUL, so it fits its buffer with the terminator |
| Iptos.TextsDiffer | ARP/WpdPack/Examples-pcap/iflist/iflist.c:143-145 | two 32-bit addresses have the same text if and only if they are equal |
| Iptos.SameBuffer | ARP/WpdPack/Examples-pcap/iflist/iflist.c:144 | two calls of a run use the same buffer if and only if their numbers differ by a multiple of 12 |
| Iptos.CallsUseSlots | ARP/WpdPack/Examples-pcap/iflist/iflist.c:140-146 | the buffer in use after a run of calls depends only on their number |
| Iptos.TextStays | ARP/WpdPack/Examples-pcap/iflist/iflist.c:137-147 | a returned text is intact after any further 11 calls |
| Iptos.TextGoes | ARP/WpdPack/Examples-pcap/iflist/iflist.c:137-147 | the twelfth further call overwrites it |
| Iptos.Converter.Store | ARP/WpdPack/Examples-pcap/iflist/iflist.c:145 | the sprintf makes the buffer in use the text, as a C string, and changes no other buffer |
| Iptos.Converter.Iptos | ARP/WpdPack/Examples-pcap/iflist/iflist.c:137-147 | on the static arrays: advances to the next buffer, returns it, and leaves in it, as a C string, the text that scans back to the address; the other buffers are left alone |
| RateMeter.DelayComputed | ARP/WpdPack/Examples-remote/tcptop/tcptop.c:116 | whatever the 32-bit subtractions, product and sum wrap around to on the way, the delay is the gap in microseconds modulo 2^32 |
| RateMeter.DelayIsGap | ARP/WpdPack/Examples-remote/tcptop/tcptop.c:116 | the computed delay is the exact gap if and only if the gap is from 0 to 2^32-1; gaps of at most 2146 seconds meet this and overflow nowhere |
| RateMeter.QuotientExact | ARP/WpdPack/Examples-remote/tcptop/tcptop.c:118-129 | dividing a product wrapped to 64 bits by a 32-bit delay gives the exact quotient if and only if the product is below 2^63 |
| RateMeter.QuotientTruncates | ARP/WpdPack/Examples-remote/tcptop/tcptop.c:118-129 | the division rounds toward zero, for negative dividends too |
| RateMeter.RatesExact | ARP/WpdPack/Examples-remote/tcptop/tcptop.c:118-129 | the computed bit rate is the exact one rounded down if and only if there are at most 1152921504606 bytes, and the packet rate if and only if there are at most 9223372036854 packets |
| RateMeter.OneByteTooMany | ARP/WpdPack/Examples-remote/tcptop/tcptop.c:118 | one byte past the bound gives a negative rate |
| RateMeter.RateIsFloor | ARP/WpdPack/Examples-remote/tcptop/tcptop.c:118-129 | the exact rate times the delay falls short of the units by less than one delay |
| RateMeter.DelaysAddUp | ARP/WpdPack/Examples-remote/tcptop/tcptop.c:116-145 | over any increasing run the delays of the handler add up to the time from the first to the last stamp |
| RateMeter.RatesConserveBits | ARP/WpdPack/Examples-remote/tcptop/tcptop.c:116-145 | over any increasing run within the byte bound, rates that are exact account, times their delays, for all bits, short of at most one bit per second |
| RateMeter.Meter.DispatcherHandler | ARP/WpdPack/Examples-remote/tcptop/tcptop.c:105-146 | in 32- and 64-bit arithmetic: each rate is the exact one over the gap modulo 2^32 if and only if its counter stays within its bound, and the stamp is carried on |
| RateMeter.Meter.Loop | ARP/WpdPack/Examples-remote/tcptop/tcptop.c:98-146 | the handler called for every sample of an increasing run: every bit rate is exact if and only if its byte count is within the bound, and if all are, the rates reported account for all bits seen, short of at most one bit per second |
| Bridge.StartHolds | ARP/WpdPack/Examples-remote/UserLevelBridge/UserBridge.c:294-305 | the invariant of the bridge holds when the threads start |
| Bridge.StepKeepsInv | ARP/WpdPack/Examples-remote/UserLevelBridge/UserBridge.c:380-442 | every step of either thread keeps the invariant of both threads and of the lock |
| Bridge.RunKeepsInv | ARP/WpdPack/Examples-remote/UserLevelBridge/UserBridge.c:380-459 | every schedule of thread steps and CTRL+C keeps the invariant |
| Bridge.RunRecords | ARP/WpdPack/Examples-remote/UserLevelBridge/UserBridge.c:380-442 | after every schedule, the packets an adapter delivered are those that its thread's reads return in the schedule with a positive result, in order; the outcomes are the results of its sends, the last result that of its last read, and the flag is set if and only if CTRL+C is in the schedule |
| Bridge.TakesEveryAnswer | ARP/WpdPack/Examples-remote/UserLevelBridge/UserBridge.c:380-442 | a thread that reads or sends takes every answer; any other that is not done goes on by itself, before a console section if and only if the lock is free |
| Bridge.DeliveredAt | ARP/WpdPack/Examples-remote/UserLevelBridge/UserBridge.c:399-421 | the k-th packet read is sent, if its sending succeeds, as the packet numbered by the successful sends before it; there are as many as successful sends |
| Bridge.BridgeForwards | ARP/WpdPack/Examples-remote/UserLevelBridge/UserBridge.c:299-442 | after every schedule, the adapter a thread sends to was sent, in order, exactly those packets that the schedule's reads return and whose sending the schedule lets succeed; every packet read is sent or failed, or is the one in hand; n_fwd is the number sent modulo 2^32; and the thread printed a line for every packet before sending it, one for every failure, and the closing line that its last read calls for |
| Bridge.ConsoleIsExclusive | ARP/WpdPack/Examples-remote/UserLevelBridge/UserBridge.c:390-442 | at most one thread is inside the console section, and no thread holds the lock while it reads, sends or is done |
| Bridge.NeverStuck | ARP/WpdPack/Examples-remote/UserLevelBridge/UserBridge.c:380-445 | some thread can step if and only if not both are done |
| Bridge.KilledRun | ARP/WpdPack/Examples-remote/UserLevelBridge/UserBridge.c:380-459 | once the flag is set, every schedule uses up the reads, sends and steps that a thread has left at its position |
| Bridge.BridgeStops | ARP/WpdPack/Examples-remote/UserLevelBridge/UserBridge.c:380-459 | after a CTRL+C in the schedule each thread returns from at most one more read and one more send and takes at most 12 steps, whatever the interleaving, and when nothing can step any more both are done |
| Bridge.LeavesForAReason | ARP/WpdPack/Examples-remote/UserLevelBridge/UserBridge.c:380-423 | a thread is out of its loop only if its last read failed or CTRL+C came, and always if its last read failed |
| Bridge.CaptureAndForwardThread | ARP/WpdPack/Examples-remote/UserLevelBridge/UserBridge.c:368-445 | the loop by itself: it stops at the flag or at the first failing read, sends exactly the received packets whose sending succeeds, and prints one line per packet, one per failure and the closing line with the count |
| ArpTable.RequestStores | ARP/stdafx.h:46 | a request from another host stores the sender's hardware address, status 1 and the present time in the first entry whose IP address is the first four bytes of the hardware address, or in a new last entry for the sender; all other entries stay (body: ARP/ARPLayer.cpp:44-63) |
| ArpTable.ReplyStores | ARP/stdafx.h:47 | a reply from another host stores hardware address, status 1 and the present time in the first entry with the sender's IP address; all other entries stay, and without such an entry nothing changes (body: ARP/ARPLayer.cpp:90-98) |
| ArpTable.OwnPacketIgnored | ARP/stdafx.h:45-47 | a packet from the host's own address changes nothing (body: ARP/ARPLayer.cpp:44-98) |
| ArpTable.SendStores | ARP/ARPDlg.cpp:492-493 | a send to another address makes its first entry, or a new last one, hold the given hardware address, status 0 and the present time, and changes no other entry; a send to the source itself changes nothing (body: ARP/ARPLayer.cpp:112-129) |
| ArpTable.BroadcastIs | ARP/ARPDlg.cpp:508 | the hardware address stored is six bytes 255 for a request and six bytes 0 for an announcement (body: ARP/ARPLayer.cpp:112-118) |
| ArpTable.TickTimesOut | ARP/ARPDlg.cpp:361 | an entry times out if and only if it is complete and older than 600 seconds, or incomplete and older than 180; nothing else of it changes (body: ARP/ARPLayer.cpp:344-353) |
| ArpTable.ReceiveKeeps | ARP/stdafx.h:45-47 | receiving moves and removes no entry, changes no entry's address, and stores only the three statuses (body: ARP/ARPLayer.cpp:44-98) |
| ArpTable.SendKeeps | ARP/ARPDlg.cpp:492-493 | sending moves and removes no entry, changes no entry's address, stores only the three statuses, keeps addresses unique, and enters the destination unless it is the source (body: ARP/ARPLayer.cpp:112-129) |
| ArpTable.RSendKeeps | ARP/BaseLayer.h:39 | the table stays as it is if the gateway is in it or is the host's own address; otherwise one entry is added, for the gateway, incomplete; addresses stay unique (body: ARP/ARPLayer.cpp:155-195) |
| ArpTable.TickKeeps | ARP/ARPDlg.cpp:361 | aging moves and removes no entry, changes no entry's address, stores only the three statuses and keeps addresses unique (body: ARP/ARPLayer.cpp:344-353) |
| ArpTable.ReplyKeepsUnique | ARP/stdafx.h:47 | a reply keeps addresses unique (body: ARP/ARPLayer.cpp:90-98) |
| ArpTable.RequestKeepsUnique | ARP/stdafx.h:46 | a request keeps addresses unique if and only if it is the host's own, or its sender is new, or the first four bytes of its hardware address are in the table as an IP address (body: ARP/ARPLayer.cpp:44-63) |
| ArpTable.TwoRequestsTwoEntries | ARP/stdafx.h:46 | two requests from one host that enter its address twice (body: ARP/ARPLayer.cpp:44-63) |
| ArpTable.TickAges | ARP/ARPDlg.cpp:361 | a later aging decides alone: ticks in between make no difference (body: ARP/ARPLayer.cpp:344-353) |
| ArpTable.DeleteRemovesFirst | ARP/ARPDlg.cpp:335 | deleting an address in the table removes its first entry, and every other entry keeps its contents and its place in the order (body: ARP/ARPLayer.cpp:355-367) |
| ArpTable.DeletedStillThere | ARP/ARPDlg.cpp:335 | a deleted address is still in the table if and only if an entry after its first one has it too (body: ARP/ARPLayer.cpp:355-367) |
| ArpTable.DeletedAfterTwoRequests | ARP/ARPDlg.cpp:335 | after two requests from one host, deleting its address leaves it in the table (bodies: ARP/ARPLayer.cpp:44-63 and 355-367) |
| ArpTable.DeleteKeeps | ARP/ARPDlg.cpp:335 | if addresses are unique they stay so and the deleted one is gone (body: ARP/ARPLayer.cpp:355-367) |
| ArpTable.ArpLayer.Receive | ARP/stdafx.h:45-47 | the table after a request or a reply (body: ARP/ARPLayer.cpp:44-98) |
| ArpTable.ArpLayer.Send | ARP/ARPDlg.cpp:492-493 | the table after sending: an incomplete entry for the destination, with the broadcast or the zero hardware address, unless source and destination are the same (body: ARP/ARPLayer.cpp:112-129) |
| ArpTable.ArpLayer.RSend | ARP/BaseLayer.h:39 | the table after forwarding to a gateway: it is asked for, from the host's own address, if and only if it is not in the table (body: ARP/ARPLayer.cpp:155-195) |
| ArpTable.ArpLayer.UpdateTable | ARP/ARPDlg.cpp:361 | the loop ages every entry exactly as specified, in place (body: ARP/ARPLayer.cpp:344-353) |
| ArpTable.ArpLayer.DeleteItem | ARP/ARPDlg.cpp:335 | erases the first entry with the address that the text scans to (body: ARP/ARPLayer.cpp:355-367) |
| ArpTable.InCacheIsFirst | ARP/ARPDlg.cpp:335 | the lookup gives the first entry with the address, or -1 if and only if there is none (body: ARP/ARPLayer.cpp:198-207 and 360-364) |
| ArpTable.ArpLayer.FindInCache | ARP/ARPDlg.cpp:335 | the loop finds what the lookup specifies (body: ARP/ARPLayer.cpp:198-207 and 360-364) |
| ArpView.FindItemIsFirst | ARP/ARPDlg.cpp:369-370 | the first row with the text, or -1 if and only if there is none |
| ArpView.ShowEntryStep | ARP/ARPDlg.cpp:365-390 | one round makes one row show the entry, at the end if the address was not shown, and changes no other row |
| ArpView.ShowToView | ARP/ARPDlg.cpp:365-390 | after k entries: distinct rows, a row for each of their addresses showing its last entry, all other rows as they were, old rows in their places |
| ArpView.EntryShowsNode | ARP/ARPDlg.cpp:367-388 | the row for an entry shows texts that scan back to its IP and its hardware address, and "incomplete", "Complete" or "Timeout" for status 0, 1 or 2 |
| ArpView.TickShowsTable | ARP/ARPDlg.cpp:359-391 | from distinct rows whose addresses are in the table, one tick leaves exactly one row for every address in the table; its columns scan back to the IP and hardware address of the last entry with that address, and its status is that entry's, in the three literal texts; and no row moves |
| ArpView.RowsAreAddresses | ARP/ARPDlg.cpp:359-391 | a view that agrees with the table has a row for an address if and only if the table has it |
| ArpView.CoveredStays | ARP/ARPDlg.cpp:325-391 | rows stay within the table's addresses while no address leaves the table |
| ArpView.RowCanBeDeleted | ARP/ARPDlg.cpp:333-335 | the text of such a row scans to an address in the table |
| ArpDialog.DeleteIsDefined | ARP/ARPDlg.cpp:325-337 | in every state of a run, the address of the marked row is in the table, so erasing it is defined |
| ArpDialog.ItemDelIs | ARP/ARPDlg.cpp:325-337 | deleting a marked row empties the view and erases the first entry with its address, all others keeping their order; without a mark nothing changes |
| ArpDialog.GarpSends | ARP/ARPDlg.cpp:503-520 | announcing hands on exactly two packets, the outer adapter's first, each from its own field's address to itself, and leaves the headers so and everything else unchanged |
| ArpDialog.GarpKeepsInv | ARP/ARPDlg.cpp:503-520 | announcing keeps the invariant: both announcements have equal source and destination, and the flag is off again |
| ArpDialog.SelectSwitches | ARP/ARPDlg.cpp:430-466 | from every state of a run: outside a session Select starts one if and only if the outer adapter has a hardware address and its field an address, and then announces; in a session it ends it and changes nothing but widgets, timer and receive flag |
| ArpDialog.NoSelectNoSwitch | ARP/ARPDlg.cpp:430-466 | over every run without Select no widget, timer or receive flag changes |
| ArpDialog.SessionAfterRun | ARP/ARPDlg.cpp:430-466 | after every run the session is on if and only if the last Select of the run was pressed outside a session and accepted the adapters |
| ArpDialog.SelectKeepsInv | ARP/ARPDlg.cpp:430-466 | selecting and reselecting keep adapter boxes and source fields enabled together, exactly when the destination field is disabled, the timer off and the receive flag off |
| ArpDialog.SendArpKeepsInv | ARP/ARPDlg.cpp:468-499 | a request is sent only in a session, with the announcement flag off, for an address that is neither 0.0.0.0 nor 255.255.255.255 |
| ArpDialog.SendArpSends | ARP/ARPDlg.cpp:468-499 | in a session, a request for an address other than 0.0.0.0 and 255.255.255.255 hands on exactly two packets, the inner adapter's first, each with its own adapter's field as source; for these two addresses none, and outside a session nothing changes |
| ArpDialog.SendArpLeavesOthers | ARP/ARPDlg.cpp:468-499 | a request changes no entry of another address |
| ArpDialog.UpdateKeepsInv | ARP/ARPDlg.cpp:359-391 | a tick keeps the invariant, ages the table, makes the view agree with it, moves no row and changes nothing else |
| ArpDialog.IpReceivedKeepsInv | ARP/IPLayer.h:13-27 | receiving an IP packet, whatever hop routing finds for it, keeps the invariant, and no address leaves the table (bodies: ARP/IPLayer.cpp:67-78 and 132-148, ARP/ARPLayer.cpp:155-195) |
| ArpDialog.IpReceivedIs | ARP/IPLayer.h:13-27 | a received packet leaves its addresses in its own adapter's header only, and changes the table only if its next hop is not in it (bodies: ARP/IPLayer.cpp:67-78, ARP/ARPLayer.cpp:155-195) |
| ArpDialog.NextKeepsInv | ARP/ARPDlg.cpp:325-520 | every possible event, packets received and routed included, keeps the invariant of session, view, table and of everything the dialog sent so far |
| ArpDialog.RunKeepsInv | ARP/ARPDlg.cpp:325-520 | every run of possible events keeps that invariant |
| ArpDialog.RunKeepsRows | ARP/ARPDlg.cpp:325-391 | over every run without deletions no address leaves the table and no row moves or goes away |
| ArpDialog.TickAfterRun | ARP/ARPDlg.cpp:325-391 | after every run, one tick makes the view agree with the table |
| ArpDialog.DeletedRowReturns | ARP/ARPDlg.cpp:325-391 | deleting a row and one tick: its address is shown again if and only if a later entry of the table had it too |
| ArpDialog.SessionKeepsSources | ARP/ARPDlg.cpp:393-466 | over every run in a session without Select, the two source fields, the hardware address, the own addresses and all widgets stay as they were |
| ArpDialog.TypedIsAsked | ARP/ARPDlg.cpp:468-499 | in a session, after typing a destination and whatever other events short of another destination or Select, SendArp hands on two requests for that destination, with the source addresses the session had when it was typed |
| ArpDialog.SendArpEnters | ARP/ARPDlg.cpp:468-499 | a request made in a session leaves the address's first entry incomplete, with six bytes 255 and the present time, whatever it was before; only if the address is that of both adapters' fields does the table stay unchanged |
| ArpDialog.AnnouncesOwnAddress | ARP/ARPDlg.cpp:430-466 | on each adapter the address announced on selecting is the host's own if and only if the field already held the address that the adapter reports |
| ArpDialog.ChoosingThenSelecting | ARP/ARPDlg.cpp:393-466 | over runs: if both adapters are chosen and then no address is typed and no other adapter chosen, Select accepts them if and only if the outer one has a hardware and an IP address, and then both announcements are of the host's own addresses |
| ArpDialog.IpLayer.Send | ARP/IPLayer.h:14 | hands that adapter's header to the ARP layer, which updates its table by it (body: ARP/IPLayer.cpp:53-58) |
| ArpDialog.IpLayer.Receive | ARP/IPLayer.h:13 | a received packet leaves its addresses in the header of its adapter, and its next hop, if any, is asked for when it is not in the table (bodies: ARP/IPLayer.cpp:67-78, ARP/ARPLayer.cpp:155-195) |
| ArpDialog.ArpDialog.constructor | ARP/ARPDlg.cpp:57-83 | a new dialog satisfies the invariant, with no session |
| ArpDialog.ArpDialog.UpdateTable | ARP/ARPDlg.cpp:359-391 | the loop over the table brings the rows into the state that a tick specifies |
| ArpDialog.ArpDialog.FindRow | ARP/ARPDlg.cpp:369-370 | the search gives the row that the lookup specifies |
| ArpDialog.ArpDialog.ShowInRow | ARP/ARPDlg.cpp:369-388 | the three column updates amount to one new or replaced row |
| ArpDialog.ArpDialog.ItemDel | ARP/ARPDlg.cpp:325-337 | without a marked row a message and no change; otherwise the entry is erased and the view emptied |
| ArpDialog.ArpDialog.SetADDR | ARP/ARPDlg.cpp:423-428 | the address goes through its text into the host's own address of that adapter, and into both fields of the header |
| ArpDialog.ArpDialog.Select | ARP/ARPDlg.cpp:430-466 | the whole new state of selecting, of refusing and of reselecting, and when the message appears; the table is unchanged |
| ArpDialog.ArpDialog.SwitchControls | ARP/ARPDlg.cpp:442-449 | widgets, timer and receive flag switch together, in both branches |
| ArpDialog.ArpDialog.StartSession | ARP/ARPDlg.cpp:442-452 | the accepting branch: controls, timer and receive flag switch, the own addresses are set, and both announcements go out, with no change to the table |
| ArpDialog.ArpDialog.SumOfBytes | ARP/ARPDlg.cpp:484-488 | the byte sum is 0 or 1020 for exactly the two addresses 0.0.0.0 and 255.255.255.255 |
| ArpDialog.ArpDialog.SendArp | ARP/ARPDlg.cpp:468-499 | the whole new state and the message: two requests, inner adapter first, in a session and for an address that can be asked for; headers changed but nothing sent for the two others; no change outside a session |
| ArpDialog.ArpDialog.GArpSend | ARP/ARPDlg.cpp:503-520 | both announcements go out, outer adapter first, each from the field's address to itself, and neither table nor controls change |

## Left out

- LayerManager.LayerManager.MakeList: the buffer that a scan leaves unset (text ending in blanks) and tokens of 50 and more characters are excluded, because the program leaves them undefined; `EveryScanSucceeds` gives the exact texts for which every scan succeeds.
- LayerManager.LayerManager.LinkLayer: the array of a layer's upper layers is a sequence of at most 255 entries; a 256th is excluded by the precondition, like a push onto a full stack.
- LayoutLinks.TreeLinks: trees name only registered layers and give each node at most one group; the machine itself (`Step`, `Run`) covers unknown names and any token list.
- HexDump.PrintLines: a buffer within 15 bytes of 2^32 is excluded; the program's is 256000 bytes.
- CaptureBuffer.PrintPackets: the buffer is a value, because the program only reads it. Records that reach out of the buffer are excluded.
- CaptureBuffer.WalkRecovers: stated for records at a word boundary, as the driver lays them out.
- NameList.SplitNames: an empty name list, empty names, more than 10 names and names of 1024 characters are excluded: the program reads or writes outside its arrays there.
- MacAddress.MacParses: the scanner is modelled without the "0x" prefix, signs and leading blanks that `%hhx` also takes, which the printer never writes.
- DottedDecimal.FormatParses: the scanner is modelled on text without signs and leading blanks, which the printer never writes.
- RateMeter.Meter.DispatcherHandler: a delay of 0, which divides by zero, is excluded, and counters are not negative; the printed time of day is not modelled.
- Bridge.BridgeForwards: one read, send, lock operation or print is one step; the 5-second wait and the exit in the CTRL+C handler, and a thread that could not be created, are not modelled.
- ArpTable.ArpLayer.Receive: the reply that answers a request, the proxy table and the exception for an unknown opcode are not modelled, only the table.
- ArpTable.ArpLayer.DeleteItem: erasing an address that is not in the table is undefined in the program and excluded; `DeleteIsDefined` shows that the dialog never does it.
- ArpView.TickShowsTable: the status column is fixed for the three statuses the table stores; for others the program leaves the column as it is, and so does the model.
- ArpDialog.ArpDialog.Select: the adapter handlers are what they put into the fields; the hardware addresses of the inner adapter and of the replies, the button's caption and the start of the receiving threads are not modelled, and a blank address field counts as 0.0.0.0.
- ArpDialog.NextKeepsInv: the handlers and the receiving threads are events of their own; data races between them inside one handler are not modelled. A marked row exists while it is marked.
- ArpDialog.IpLayer.Receive: the routing table and its search are not modelled; the next hop they find is a parameter, and so is a hop that is a proxy entry (none). The three seconds that RSend waits for a reply are other events.
- The Ethernet framing, the proxy list and the other dialogs and windows: separate behaviour, or user interface only.
- The WinPcap library, the packet driver, file handling and the remaining example programs: foreign code, or simpler versions of the loops modelled here.
