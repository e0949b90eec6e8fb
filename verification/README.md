# U-Storage: a verified model

U-Storage turns a small device with disks into a file server for a phone on its USB port. This project
models the parts of it that hold state, arithmetic or reassembly logic, and proves what they are for.

- **Transport** (`Base`, `Usb`, `Mux`, `Sending`, `Progress`, `Storage`, `Acknowledging`, `Session`,
  `MuxDevice`). `Mux` gives each
  operation of `usProtocol.c` as a function on the connection fields, the USB schedules and the wire;
  `MuxDevice.Phone` is the program's own form, an object with its buffers updated in place, proved equal
  to those functions; `Sending` and `Storage` prove what the functions achieve, up to the end-to-end
  round trip; `Progress` proves when operations succeed, and `Acknowledging` that received data is
  acknowledged; `Session` follows the counters over whole sessions.
- **Firmware** (`Crc`, `Md5`, `Firmware`): the table-driven CRC-32 against the bit-serial one, the
  streaming MD5 with its unrolled rounds against RFC 1321, and the START / DATA / END upgrade machine.
- **Disks** (`ListHead`, `Registry`, `DiskManager`): the intrusive doubly linked list against sequences,
  and the registry of disks and partitions under every sequence of events.
- **Files** (`Listing`, `DiskFile`): the directory listing packed into bounded messages in the buffer of
  its own request, and the READ and WRITE commands.
- **Labels** (`Label`): UTF-16 to bounded UTF-8, and the trimming that relies on `size_t` wrapping.
- **Control** (`Mailbox`, `MainLoop`): the plug-notice slot shared by two threads, statement by
  statement, and the connection loop over every plug change and return code.

What USB, the file system, probing and mounting answer is a schedule or an oracle, over which every
statement is quantified. A finite schedule ends in a failure (a device gone offline, a failed read or
write), so nothing is claimed about a peer that never makes progress; what succeeds is stated over schedules
that work far enough. `Status.Undefined` marks the
inputs on which the C code would leave its buffers.

## Where a promise fails

Some natural promises hold only under a condition, and one not at all. The code is modelled as it is, and
each condition is proved exact.

- A message arrives whatever windows cut it and whatever transfers bring its packets, if and only if the
  first transfer of each packet holds the mux header; at a shorter one the receiver gives up with a
  package error. An empty packet, sent into a window refreshed to zero, only costs the receiver a call
  that returns OK with nothing to handle: the next call goes on with the message (`Storage.RoundTrip`).
  Over AOA the transfer that brings the first byte must hold the protocol header; a shorter one is lost
  without an error (`Storage.RoundTripAoa`).
- What a sent segment puts on the wire ends short if and only if its last transfer was no multiple of 512
  bytes, or the segment is one and the zero-length packet after it, whose result the program ignores, got
  through (`Sending.SendTcpEndsShort`). `Sending.EndsLong` has the input where it does not: 600 bytes of
  which the first transfer moves 88.
- A partition that its disk has already is registered again if and only if its name does not start with
  the disk's or starts with that of a disk before it, as with `sda`, `sdaa` and `sdaa1`
  (`Registry.DuplicatedIff`, `Registry.TwiceRegistered`).
- The search for the MD5= line reads pieces of at most 510 bytes, not lines: a piece of a longer line
  counts (`Firmware.GenuineIff`, `Firmware.LongLineIsCut`).
- A wakeup marks as mounted only the partitions before the first that the system has mounted already; that
  one and those behind it stay marked unmounted (`Registry.SafeRemoveThenWake`).
- A label is valid UTF-8 if and only if it has no surrogates: they are encoded one by one
  (`Label.ValidIff`).
- A listing that the phone cuts short is reported as OK, and the callback's own result for it is the value
  of a comparison (`Listing.Lister.ReadDirInvoke`, `Listing.ListHandle`).

`protocol.h:251` says that the size of a directory is 0; a listing gives the size that `stat` gives
(`usDecode.c:334`), and so does the model.

## Model

| member | source | states |
|---|---|---|
| `Usb.PushDelivers` | usUsb.c:138-182 | A bulk send that succeeds has moved exactly the buffer, in order, whatever partial transfers the bus makes; one that fails has moved a proper prefix of it |
| `Usb.PushOkIff` | usUsb.c:138-182 | A bulk send succeeds if and only if its transfers work, the first and all others, until they have moved the whole buffer |
| `Usb.PushEndsShort` | usUsb.c:151-174 | Whatever partial transfers the bus makes, a delivered buffer ends in a short or empty transfer if and only if what its last transfer moved is zero or no multiple of 512 |
| `Usb.LastAtBoundaries` | usUsb.c:151-174 | With transfers broken only at packet boundaries, the last one is short if and only if the buffer's length is no positive multiple of 512 |
| `MuxDevice.Phone.BulkReceive` | usUsb.c:101-135 | One receive lands in the given stretch of the caller's buffer and nowhere else; too large a transfer is an overflow and leaves the buffer alone |
| `MuxDevice.Phone.BulkSend` | usUsb.c:138-182 | The partial-transfer loop in place agrees with Usb.Push on status, on the rest of the schedule and on what went over the wire |
| `Mux.HeaderFields` | usProtocol.c:267-349 | A peer reads back out of a packet exactly the length, sequence, acknowledgement, window and flags its sender had, and the payload, for both header versions |
| `MuxDevice.Phone.SendTCP` | usProtocol.c:353-442 | The header is laid down in place before a payload already in the buffer; the wire gets header and payload in one send, and a zero-length packet when their length is a multiple of 512; only the header's bytes of the buffer change |
| `Sending.SendTcpDelivers` | usProtocol.c:388-441 | A segment sent is on the wire whole; one that fails leaves a proper prefix, and tx_seq as it was |
| `Sending.SendTcpEndsShort` | usProtocol.c:409-437 | Framing, whatever partial transfers USB makes: what a sent segment put on the wire ends in a short or empty transfer if and only if its last transfer was no multiple of 512, or its length is one and the zero-length packet, whose result the program ignores, got through |
| `Sending.SendTcpAtBoundaries` | usProtocol.c:409-437 | With transfers at packet boundaries: if and only if its length is no multiple of 512 or the zero-length packet got through |
| `Sending.EndsLong` | usProtocol.c:409-437 | The input that shows the difference: a segment of 600 bytes whose transfers move 88 and then 512 is sent with status OK and does not end short |
| `MuxDevice.Phone.ReceiveAckPacket` | usProtocol.c:541-586 | The reception of an acknowledgement in place, with the refusals of Progress.AckRefused and the fields of Progress.AckAccepted |
| `Sending.AckFields` | usProtocol.c:579-584 | An acknowledgement leaves tx_seq and the wire alone, and the window it advertises is a multiple of 256 |
| `Progress.AckAccepted` | usProtocol.c:541-586 | An acknowledgement that comes in one transfer is accepted: rx_seq, rx_ack, rx_win and, from version 2 on, irx_seq are what its header said, nothing behind it is taken in, and nothing else changes |
| `Progress.AckRefused` | usProtocol.c:562-578 | Control and version packets and packets of any other size than a header are refused, and change no field but irx_seq |
| `MuxDevice.Phone.SendPart` | usProtocol.c:715-742 | One fragment sent from the middle of the buffer: only the bytes its header covers, just before it, change |
| `MuxDevice.Phone.SendProPackage` | usProtocol.c:702-745 | Although every header after the first is written over bytes already sent, the wire gets the message as it was at the call; the first 220 bytes of the buffer, its protocol header among them, and everything beyond the message are unchanged, on success and on every error |
| `Sending.SendDelivers` | usProtocol.c:713-742 | On success the fragments concatenate to the message, whatever the windows; on failure the fully sent ones are a proper prefix |
| `Sending.SendNumbers` | usProtocol.c:735-739 | tx_seq has advanced, modulo 2^32, by exactly the payload of the fragments fully sent, on success and on failure, and each fragment is numbered by the payload before it |
| `Sending.SendOnWire` | usProtocol.c:731-742 | The wire holds the packets of the fully sent fragments, whole and in order, and after a failure a part of one more |
| `Sending.SendStartsLong` | usProtocol.c:713-728 | Windows being multiples of 256, the first non-empty fragment is the whole message or at least 256 bytes; the last fragment of a message sent in full is not empty |
| `Sending.SendPlanned` | usProtocol.c:713-728 | The fragments of one call are those that an account of the window predicts: each charged to the budget left, which only an acknowledgement refreshes |
| `Sending.WindowKept` | usProtocol.c:713-739 | At every point of one call the bytes sent since the last refresh plus the budget left equal the window the peer last advertised, so no fragment exceeds it |
| `Progress.SendSucceeds` | usProtocol.c:702-745 | When the outbound transfers work and acknowledgements are waiting, a send succeeds if the window left and the windows they grant cover the message, and takes in exactly the acknowledgements it needs; if they do not and nothing else comes, it fails |
| `Sending.AoaSends` | usProtocol.c:656-673 | aoa_SendProPackage makes at most two sends, the first of a length that is no multiple of 512 and the second of a single byte |
| `Sending.AoaDelivers` | usProtocol.c:642-676 | Over AOA a call that succeeds delivers exactly the message; one that fails, a proper prefix |
| `Sending.AoaEndsShort` | usProtocol.c:656-673 | Framing over AOA, whatever partial transfers USB makes: the second send, of one byte, always ends short; the first if and only if its last transfer was no multiple of 512, so always with transfers at packet boundaries |
| `Progress.AoaSucceeds` | usProtocol.c:642-676 | Over AOA a send succeeds whenever the transfers work |
| `Progress.PackageSucceeds` | usProtocol.c:1372-1388 | A package is sent to either kind of phone under the same conditions |
| `MuxDevice.Phone.AoaSendPackage` | usProtocol.c:642-676 | The loop in place agrees with the specification of Sending.AoaDelivers |
| `MuxDevice.Phone.SendPackage` | usProtocol.c:1372-1388 | For either kind of phone the first 220 bytes and everything beyond the message survive a send |
| `MuxDevice.Phone.ResetConnection` | usProtocol.c:588-640 | Waits until everything sent is acknowledged or the device falls silent, then zeroes the counters |
| `Progress.ResetWaits` | usProtocol.c:588-640 | A reset takes in the acknowledgements up to the first that acknowledges everything sent, and none behind it, and then zeroes the counters |
| `MuxDevice.Phone.GatherPacket` | usProtocol.c:789-806 | The inner reassembly loop agrees with Mux.Gather on interBuf and the transfers consumed |
| `MuxDevice.Phone.RecvProPackage` | usProtocol.c:748-846 | Fields, interBuf, the caller's buffer, the acknowledgement and the status after a receive, on every path including the refusal of a reset connection |
| `Storage.GatherCut` | usProtocol.c:789-806 | Filling interBuf from any splitting of a packet leaves exactly the packet's bytes there and consumes no transfer beyond it |
| `Storage.ReceiveDecodes` | usProtocol.c:748-846 | A packet made by itunes_SendTCP, split into USB transfers in any way, is decoded if and only if the first transfer holds the mux header: the payload is its own, tx_ack advances by its length, rx_seq, rx_ack and rx_win are what its header said, and one acknowledgement has gone out if it carried data, a proper prefix of it if a transfer failed, and nothing if it was empty; otherwise the receiver reports a package error and leaves the other transfers |
| `Storage.AckReads` | usProtocol.c:833-836 | What a peer reads in that acknowledgement: a segment without data, with flags TH_ACK, numbered tx_seq, acknowledging all bytes before the payload just received, and with the receiver's window |
| `Storage.ReceiveRefuses` | usProtocol.c:823-831 | A packet with any flags but TH_ACK, a reset among them, is refused |
| `Storage.ReceiveRejects` | usProtocol.c:763-793 | Control and version packets, and packets larger than interBuf, are rejected at their first transfer with a package error |
| `Storage.MagicDecides` | usStorage.c:187-213 | The two short requests are handed over as they came; a package of another magic, or of a length the buffer cannot hold, is passed over with OK and nothing to handle |
| `MuxDevice.Phone.RecvMessage` | usStorage.c:171-230 | The outer reassembly loop in place: buffer, interBuf, connection, status and size after a message |
| `Storage.AssembleSegments` | usStorage.c:214-227 | The outer loop appends the payloads of consecutive segments, empty ones included, and stops at the last one of the message, if every packet's first transfer holds its mux header; otherwise it ends in a package error |
| `Storage.RoundTrip` | usStorage.c:171-230 | End to end: a well-formed message sent by itunes_SendProPackage under any windows, each packet split into transfers in any way. Over repeated calls, as the main loop makes them, each leading empty segment costs one call that returns OK with nothing to handle, the buffer untouched and exactly one packet taken in; the next call hands the message over byte for byte, with nothing behind it taken in, if and only if every packet's first transfer holds the mux header, and otherwise some call reports a package error |
| `Storage.FirstCallDelivers` | usProtocol.c:713-728 | The first call is enough if and only if the sender's window, or else the one it is advertised next, is not zero |
| `Storage.EmptySegmentIsIdle` | usStorage.c:182-187 | A call that meets an empty segment returns OK with nothing to handle, leaves the buffer alone, and leaves to come everything behind that packet: no byte of the message is lost |
| `Acknowledging.RoundTripAcknowledges` | usStorage.c:171-230 | The other half of the round trip: when the receiver's transfers work, the calls that hand a message over put on the wire exactly one acknowledgement for each of its segments with data, in order, and nothing else |
| `Acknowledging.AcksCount` | usProtocol.c:833-836 | Their bytes are as many headers as there were segments with data |
| `Acknowledging.AcksAdvance` | usProtocol.c:833-839 | Each acknowledges exactly the payload of the segments before its own, modulo 2^32 |
| `Storage.RoundTripAoa` | usProtocol.c:642-696 | The round trip over AOA, for any splitting into transfers: empty ones cost an idle call each; the call that takes in the first byte hands the message over byte for byte if and only if that transfer holds the protocol header, and otherwise returns OK with nothing to handle, the bytes of that transfer being lost |
| `MuxDevice.Phone.GetIosVersion` | usProtocol.c:449-511 | The version exchange: fields, wire and status on every path, a known version being kept |
| `MuxDevice.Phone.ConnectIosPhone` | usProtocol.c:848-939 | Connecting: fields, wire and status on every path, including the control packet before the answer and a refusal |
| `Progress.VersionAgreed` | usProtocol.c:449-511 | When the transfers work and the version is not known, the exchange succeeds if and only if the phone answers version 1 or 2, which is then the version, with counters from zero |
| `Progress.ConnectDecides` | usProtocol.c:848-939 | Once the version is agreed, a phone is connected if and only if its answer to the SYN, behind a control packet or not, is a SYN-ACK: both counters advance by one, its window is taken, and nothing behind the answer is taken in; any other flags are a refusal, and a reset zeroes the counters |
| `Progress.FirstConnectSucceeds` | usProtocol.c:848-939 | Connecting for the first time: a phone that answers version 1 or 2 and then a SYN-ACK is connected, and both counters stand at 1 |
| `Progress.ConnectSucceeds` | usProtocol.c:848-939 | The same with the version known: no version is exchanged, and both counters go on from their values |
| `Session.ConnectCounts` | usProtocol.c:920-921 | A connect that succeeds has counted the SYN on both sides, from zero or, when the version was known, from the counters as they were |
| `Session.ReceiveCounts` | usProtocol.c:823-843 | What a receive does to the two counters: the payload on success, zero after a reset, nothing on any other failure |
| `Session.RunCounts` | usProtocol.c:738 | Over every run of sends and receives, whatever they return, tx_seq and tx_ack are their bases plus the payload bytes moved, modulo 2^32; only a reset changes the bases |
| `Session.SessionCounters` | usProtocol.c:848-939 | After a connect from zeroed counters and until a reset, tx_seq is 1 plus the payload bytes sent and tx_ack 1 plus those received, modulo 2^32, over any interleaving of sends and receives |
| `Crc.Table` | usFirmware.c:100-153 | Every entry of the table is eight bit-serial steps of the reflected polynomial 0xEDB88320 on its index |
| `Crc.TableStep` | usFirmware.c:160 | One table step equals eight bit-serial steps on the state with the byte mixed in |
| `Crc.Crc32` | usFirmware.c:155-162 | crc32 equals the bit-serial CRC of section 8 of RFC 1952, without its complements, for every seed and length |
| `Crc.Composes` | usFirmware.c:155-162 | The checksum of a concatenation is that of its second part seeded with that of its first |
| `Crc.Linear` | usFirmware.c:155-162 | The checksum is XOR-linear in seed and data together |
| `Crc.SeedInjective` | usFirmware.c:155-162 | Different states stay different over the same data |
| `Crc.BurstDetected` | usFirmware.c:155-162 | Any change confined to four adjacent bytes, a change of one byte in particular, changes the checksum |
| `Md5.LineIsStep` | usFirmware.c:56-88 | A line of the unrolled transform is one step of section 3.4 of RFC 1321, up to the turn of the registers |
| `Md5.Round1` | usFirmware.c:208-224 | The sixteen unrolled lines of round 1 equal steps 0 to 15 of the indexed schedule |
| `Md5.Round2` | usFirmware.c:226-242 | The unrolled round 2 equals steps 16 to 31 |
| `Md5.Round3` | usFirmware.c:244-259 | The unrolled round 3 equals steps 32 to 47 |
| `Md5.Round4` | usFirmware.c:261-276 | The unrolled round 4 equals steps 48 to 63 |
| `Md5.Transform` | usFirmware.c:198-280 | MD5Transform equals the 64-step compression of section 3.4 |
| `Md5.CounterAdds` | usFirmware.c:294-299 | The wrapping shift, the carry test and the high half's increment add 8 times the length to the split counter, modulo 2^64 |
| `Md5.CounterIndex` | usFirmware.c:293 | The buffer index read off the counter is the number of bytes fed modulo 64 |
| `Md5.PadLengthUnique` | usFirmware.c:319-320 | The pad length is the one that section 3.1 of RFC 1321 prescribes |
| `Md5.PaddedWhole` | usFirmware.c:315-324 | A padded message is a whole number of blocks |
| `Md5.Context.constructor` | usFirmware.c:282-290 | A new context has been fed nothing |
| `Md5.Context.Update` | usFirmware.c:291-314 | For any split of the data over calls, of every length on which the loop's unsigned index does not wrap, the context has taken in the whole blocks of everything fed, keeps the rest in its buffer, and its counter is 8 times the bytes fed modulo 2^64 |
| `Md5.Context.Final` | usFirmware.c:315-325 | The digest is that of sections 3.1 to 3.5 of RFC 1321 over everything fed |
| `Md5.ComputeMd5` | usFirmware.c:337-363 | For any splitting of the data by read(), compute_md5 gives the digest of exactly the bytes from its offset on; it fails if and only if the file cannot be opened or sought or a read fails, the one that finds the end included |
| `Md5.ReadsThroughIff` | usFirmware.c:352-359 | The bytes of a file are read through if and only if every read that is made works, the one that finds the end included |
| `Firmware.WriteDelivers` | usFirmware.c:407-431 | Whatever short writes and interruptions, a successful writeFirmware has written the payload whole and in order; a failed one a proper prefix |
| `Firmware.WriteOkIff` | usFirmware.c:407-431 | A payload is written if and only if the calls up to the one that completes it do not fail, interruptions or not |
| `Firmware.Upgrader.WriteFirmware` | usFirmware.c:407-431 | The write loop in place: what is appended to the staged file, what is left of the schedule, and the descriptor closed on failure |
| `Firmware.LineMatches` | usFirmware.c:463-477 | The MD5= line is accepted if and only if it carries the 32 digits of the checksum, in either case, ended by its newline or by a zero |
| `Firmware.LineEnds` | usFirmware.c:456 | fgets stops only after a newline, at the end of the file, or when its 510 bytes are full |
| `Firmware.FindLineFinds` | usFirmware.c:454-471 | The search, which reads piece after piece, each from where the one before it ended, finds exactly the first of the first ten that starts with MD5=, or nothing if none does |
| `Firmware.GenuineIff` | usFirmware.c:454-482 | A firmware is genuine if and only if the first of its first ten pieces that starts with MD5= goes on with the 32 digits, in either case, of the MD5 of the file past its first 64 KB, ended by the newline or a zero |
| `Firmware.LongLineIsCut` | usFirmware.c:456 | A piece need not be a line: 510 bytes without a newline are one, and MD5= right behind them is found although no line starts there |
| `Firmware.UpgradeFirmware` | usFirmware.c:444-485 | The search for the line, the copy and the comparison in place: true exactly when the hash could be read and the file is genuine |
| `Firmware.Upgrader.Execute` | usFirmware.c:552-592 | START, DATA, END and unknown commands in place: descriptor, staged file, launches and status |
| `Firmware.CommandOkIff` | usFirmware.c:552-592 | When each command succeeds, from every state: START if and only if the file opens, which leaves an open, empty one whatever was held before; DATA if and only if it has a payload, the descriptor is held and open and the writes get through; END if and only if the staged file can be read and is genuine |
| `Firmware.UpgradeSucceeds` | usFirmware.c:552-592 | Over a file that opens and calls that write, from every state, START and all DATA after it return OK and stage the concatenation; END returns OK if and only if that can be read and is genuine, so over reads that work if and only if it is genuine, and the upgrade script is then started once |
| `Firmware.DataAppends` | usFirmware.c:574-583 | A run of successful DATA commands appends their payloads in order |
| `Firmware.UpgradeStagesPayloads` | usFirmware.c:552-592 | In any run, if START, the DATA commands after it and END all return OK, the staged file is the concatenation of the payloads, it carries its own checksum and the upgrade script was started exactly once more |
| `Firmware.OutsideUpgrade` | usFirmware.c:574-579 | Before the first START and after an END, no run of commands without a successful START changes the staged file, and every DATA in it is refused |
| `Firmware.AfterEnd` | usFirmware.c:584-591 | After an END that returned anything, from any state, no run of commands without a successful START changes the staged file |
| `Firmware.FailureSticks` | usFirmware.c:407-431 | After a failed write every DATA fails and the staged file stays as it is, until the next START |
| `Firmware.LaunchesCounted` | usFirmware.c:552-592 | Over any run of commands the upgrade script is started exactly once for each END that could read, in the file staged by the commands before it, a genuine firmware, and by nothing else |
| `ListHead.RingUnique` | diskm/list.h:344-348 | The next pointers determine the sequence of a list: a head has one |
| `ListHead.InsertBetween` | diskm/list.h:30-37 | __list_add puts the entry between two neighbours of a circular list whose next and prev are each other's inverses, and keeps it one |
| `ListHead.ListAdd` | diskm/list.h:47-50 | list_add refines putting in front of the sequence |
| `ListHead.ListAddTail` | diskm/list.h:59-62 | list_add_tail refines appending to the sequence |
| `ListHead.ListDel` | diskm/list.h:72-89 | list_del refines removing an entry from the sequence |
| `ListHead.ListSplice` | diskm/list.h:186-210 | list_splice refines concatenation, and leaves the old head's own pointers as they were |
| `ListHead.ListSpliceInit` | diskm/list.h:216-223 | list_splice_init refines concatenation and leaves the old list empty |
| `ListHead.ForEachSafe` | diskm/list.h:344-348 | The safe iterator visits every original entry exactly once and in order, although its body deletes current entries, and leaves the others in order |
| `ListHead.FreeAll` | diskm/disk_manager.c:1532-1556 | The removal loop over real nodes: every partition node is unlinked and freed exactly once, in order, although the loop goes on from it, and the list is left empty |
| `ListHead.UnlinkDisk` | diskm/disk_manager.c:1532-1562 | A removal over real nodes: the partitions are freed in order and then the disk; the other disks stay linked in their order, and no other node is written |
| `Registry.RunInv` | diskm/disk_manager.c:1570-1587 | Every event keeps the registry invariant, over every sequence of events and every outcome of probing and mounting |
| `Registry.RegistryInvariant` | diskm/disk_manager.c:1993-2044 | In every run from disk_init on: disk names are unique, partnum is the number of partitions, a disk with status DISK_SFREMOVE has none marked mounted |
| `Registry.RunNames` | diskm/disk_manager.c:1092-1157 | Partition names within a disk stay unique over every sequence of events in which no disk's name is a prefix of another's |
| `Registry.RegistryNames` | diskm/disk_manager.c:1993-2044 | So in every run from disk_init on |
| `Registry.RunFiled` | diskm/disk_manager.c:1570-1587 | Over every sequence of events, every partition is filed under the disk that its name belongs to |
| `Registry.SdNaming` | diskm/disk_manager.c:1066-1078 | For sd devices there is such a belonging: the name without the digits at its end |
| `Registry.MmcOwner` | diskm/disk_manager.c:1046-1064 | A partition of an SD card, such as mmcblk0p1, belongs to the disk named by the letters at its start and the number behind them: printing what atoi reads gives that number back |
| `Registry.DuplicatedIff` | diskm/disk_manager.c:839-867 | A partition its disk already has is registered a second time if and only if its name does not start with the disk's or starts with that of a disk before it; otherwise the registry stays as it is |
| `Registry.DuplicatedInRun` | diskm/disk_manager.c:839-867 | So at the end of every run from disk_init |
| `Registry.TwiceRegistered` | diskm/disk_manager.c:853-862 | A run that shows it: the table has the disks sda and sdaa, and sdaa1; after disk_init, an add event for sdaa sees the same table again, and sdaa1 is registered twice, whatever probing and mounting say |
| `Registry.SdOwnerIsPrefix` | diskm/disk_manager.c:1066-1078 | Every sd partition is filed under a disk whose name its own name properly extends |
| `Registry.InitEnters` | diskm/disk_manager.c:1027-1158 | Every disk of the partition table is registered after disk_init, and every partition whose disk is listed with it is held by some disk |
| `Registry.InitRegisters` | diskm/disk_manager.c:1993-2044 | A disk is registered after disk_init if and only if the table lists it, or lists a partition of it and it can be found |
| `Registry.InitHoldsOnly` | diskm/disk_manager.c:1215-1287 | And a disk holds only partitions that the table lists, or, having none, itself |
| `Registry.InitSettles` | diskm/disk_manager.c:1993-2044 | After disk_init every registered disk counts as mounted and stands in the LUN reply, in order; each of its partitions, but for EFI partitions of a GPT disk, is marked mounted if and only if it was mounted already, or was recognised and could be mounted |
| `Registry.AddEnters` | diskm/disk_manager.c:1027-1158 | A disk that an add event names and the table lists is registered after it, and the event succeeds; its partitions that the table lists behind a registered disk are held |
| `Registry.AddRegisters` | diskm/disk_manager.c:1164-1213 | After an add event exactly those disks are registered that were before, or that the table lists under a name starting with the event's |
| `Registry.NothingToDo` | diskm/disk_manager.c:1449-1568 | Nothing but an add event changes anything for a disk that is not registered, and a wakeup changes only a disk that was removed safely |
| `Registry.AddSettles` | diskm/disk_manager.c:1390-1414 | An add event succeeds if and only if the disk is registered after it; the disk then counts as mounted, and each of its partitions, but for EFI partitions of a GPT disk, is marked mounted if and only if it was mounted already, or the same event recognised its file system and could mount it |
| `Registry.SafeRemoveThenWake` | diskm/disk_manager.c:1449-1568 | A safe removal takes exactly that disk out of the LUN replies and marks all its partitions unmounted; waking it up always restores the reply as it was. Marked mounted are then exactly the partitions that could be mounted before the first one the system has mounted already, and the wakeup reports success if and only if there is none such |
| `Registry.RemoveForgets` | diskm/disk_manager.c:1539-1562 | Removing a registered disk always succeeds: it is gone, and the others stand in their order, untouched |
| `DiskManager.Manager.SearchDisk` | diskm/disk_manager.c:839-867 | The search for a disk finds the first of that name, or none |
| `DiskManager.Manager.SearchPartition` | diskm/disk_manager.c:839-867 | The search for a partition looks only into the first disk whose name is a prefix of it |
| `DiskManager.Manager.InsertPartition` | diskm/disk_manager.c:1027-1158 | A line of the partition table adds a disk, a partition, a partition with its disk, or nothing |
| `DiskManager.Manager.ConfirmPartitions` | diskm/disk_manager.c:1215-1287 | Probing changes the recognised partitions of the disk it is for, or of all, and no other disk |
| `DiskManager.Manager.Automount` | diskm/disk_manager.c:1289-1388 | Mounting changes the disk it is for, or all, and no other |
| `DiskManager.Manager.Process` | diskm/disk_manager.c:1390-1414 | Scan, probe and mount in sequence, each only if the one before allows it |
| `DiskManager.Manager.WakeupDisk` | diskm/disk_manager.c:1449-1512 | Waking remounts the partitions of the named disk, up to the first that is mounted already, and reports whether there was such a disk |
| `DiskManager.Manager.RemoveDisk` | diskm/disk_manager.c:1514-1568 | A safe removal marks every partition unmounted and keeps the disk; a removal drops the disk and keeps the others in order (on records; over nodes it is ListHead.UnlinkDisk) |
| `DiskManager.Manager.GetDiskLun` | diskm/disk_manager.c:2051-2089 | The reply lists the mounted disks in order, as many as the buffer holds, and its length says how many |
| `DiskManager.Manager.ActionFunc` | diskm/disk_manager.c:1570-1587 | Every event keeps the registry invariant in the object the program updates |
| `Listing.ListingComplete` | usDecode.c:286-350 | The messages of a listing carry exactly the entries that can be stat'ed, other than "." and "..", in order and once each; each message fits the buffer, each but the last has no room for one record more, and only the last ends the listing |
| `Listing.WantedIff` | usDisk.c:295-308 | A file is among the entries a listing wants if and only if some entry of that name, neither "." nor "..", can be stat'ed, and it then has that stat |
| `Listing.ReadsBack` | usDecode.c:286-350 | A peer that reads message after message until one ends the listing collects the records of all of them |
| `Listing.PeerReadsDirectory` | usDisk.c:282-315 | The round trip: from the bytes of the packets a peer gets the wanted entries of the directory, whatever the size of the buffer |
| `Listing.CutShortIsPartial` | usDecode.c:295-305 | A listing that breaks off never reads as a complete one |
| `Listing.RecordAdded` | usDecode.c:311-338 | The stores of one record leave the records before it, and the protocol header, as they were, and raise the count by one |
| `Listing.MessageSealed` | usDecode.c:341-352 | The stores that complete a message make it read as the pending records, with len 5 + 273 * fileNum or 0, behind the request's own header |
| `Listing.Lister.Send` | usDecode.c:295-300 | Sending a batch leaves the protocol header in the buffer as the request had it, although the transport writes its headers over the batch |
| `Listing.Lister.AddRecord` | usDecode.c:311-338 | One record is added in the buffer, within its size |
| `Listing.Lister.ReadDirInvoke` | usDecode.c:273-355 | The callback in place: which message it sends, what stays pending, and the result, which loses the status of a failed send |
| `Listing.Lister.DiskList` | usDisk.c:282-315 | The loop over the directory sends the messages of the specification, or a prefix of them up to the first that fails |
| `Listing.ListHandle` | usDecode.c:357-391 | Every packet given to the phone answers the request and carries its message; without a directory there is one refusal; a listing cut short by the phone is still reported as OK |
| `Label.EncodeToUtf8` | diskm/libblkid-tiny.c:223-264 | The output, zero-terminated within the buffer, is the encoding of the units that fit; nothing behind the zero is touched |
| `Label.FittingIsLongest` | diskm/libblkid-tiny.c:229-261 | The units encoded are the longest prefix that stops before the first zero unit and leaves room for the terminator |
| `Label.UnitsReadBack` | diskm/libblkid-tiny.c:229-234 | Units stored in either byte order are read back as they were, and an odd byte at the end is ignored |
| `Label.ShortLabelIsWhole` | diskm/libblkid-tiny.c:229-261 | A label that fits and has no zero unit is encoded whole, whatever follows its first zero |
| `Label.DecodesBack` | diskm/libblkid-tiny.c:229-261 | The output decodes back to the units it was made from, so it never ends in a part of a character |
| `Label.ValidIff` | diskm/libblkid-tiny.c:242-259 | The output is valid UTF-8 by section 4 of RFC 3629 if and only if no unit is a surrogate |
| `Label.RtrimWhitespace` | diskm/libblkid-tiny.c:266-277 | The string is cut to its longest prefix that does not end in whitespace, also when all of it is whitespace or it is empty and the index wraps below zero and back; nothing else changes |
| `Label.TrimIsLongest` | diskm/libblkid-tiny.c:266-277 | The prefix kept does not end in whitespace, and everything cut off is whitespace |
| `Label.TrimCutsCharacters` | diskm/libblkid-tiny.c:279-285 | Trimming the bytes trims whole characters: it is the encoding of the trimmed units |
| `Label.SetUtf8Label` | diskm/libblkid-tiny.c:279-285 | The label a C string reader sees decodes to the units that fit 63 bytes, without the whitespace at their end |
| `DiskFile.ReadGives` | usDisk.c:136-161 | However the reads are cut, a read that succeeds brings the bytes the file has in its range; one that fails, the first of them |
| `DiskFile.ReadPastEnd` | usDisk.c:152-161 | A read that returns OK brings exactly the available slice, so fewer bytes past the end of the file |
| `DiskFile.WriteGives` | usDisk.c:191-211 | However the writes are cut, a write that succeeds has put all its bytes in place; one that fails, the first few and nothing else |
| `DiskFile.WriteThenRead` | usDisk.c:115-216 | A read of the path, offset and size of a write that succeeded gives back exactly the bytes written; every other byte and every other file is as it was |
| `DiskFile.FailedWriteKeeps` | usDisk.c:191-211 | A write that fails leaves every byte outside its range, and every other file, as it was |
| `DiskFile.OkIff` | usDisk.c:115-216 | Over calls that work, a read and a write succeed if and only if path and size are not empty, the file exists and the offset is not negative; the first of these that fails decides the code |
| `DiskFile.RequestsRoundTrip` | usDecode.c:66-83 | WRITE then READ as messages: the reply to the READ has relag clear, len equal to the size, and the bytes that stood behind the path in the WRITE request |
| `DiskFile.RequestsSucceed` | usDecode.c:57-126 | And over calls that work they do succeed: for an existing file, no negative offset and a size that is not zero, the READ is answered, without the error flag, with the bytes of the WRITE |
| `DiskFile.AnswerReads` | usDecode.c:76-83 | A reply's len is what follows its header, and relag stays clear exactly on success |
| `DiskFile.Disk.DiskRead` | usDisk.c:115-168 | The read loop in place: the bytes that land in the buffer, nothing else in it changed, and the status and count on every path |
| `DiskFile.Disk.DiskWrite` | usDisk.c:170-216 | The write loop in place: the file, no other file, and the status on every path |
| `DiskFile.Disk.ReadHandle` | usDecode.c:57-91 | The whole buffer after a READ, which reads over its own request, with the error reply for a wrong version, a size larger than the buffer, or a failed read |
| `DiskFile.Disk.WriteHandle` | usDecode.c:93-126 | Files and buffer after a WRITE, with the error reply |
| `Mailbox.SlotHoldsLatest` | usDisk.c:91-113 | The slot is valid if and only if an event was accepted after the last fetch and the last successful LUN or INFO reply, and then holds the latest such event |
| `Mailbox.DeliveredOnce` | usDisk.c:63-77 | The delivered events are those of a rising sequence of accepted calls, so none comes twice or out of order; they are exactly those fetched before anything else filled or emptied the slot |
| `Mailbox.StepKeeps` | usDisk.c:101-112 | Every single statement of either thread, and every acquiring and releasing of the mutex, keeps the slot at a stage of the one call inside |
| `Mailbox.InterleavingsAreAtomic` | usDisk.c:63-113 | Under every interleaving of the two threads, statement by statement, at most one is inside, and whenever the mutex is free slot and deliveries are those of the finished calls run one after the other |
| `Mailbox.HolderFinishes` | usDisk.c:63-113 | From every reachable state, a thread inside comes out after the statements it has left: the mutex is free, its call is over and the other thread is where it was |
| `Mailbox.CallCompletes` | usDisk.c:63-113 | A thread that waits for a free mutex gets it, runs its call and gives it back on every path |
| `Mailbox.MailboxSafe` | usDisk.c:252-279 | So the slot and the deliveries keep both promises under every interleaving |
| `MainLoop.RunKeepsRules` | usStorage.c:378-443 | In every run, whatever the plug flag does and the calls return: receive, handle and notify happen only with a connection, a fatal status is followed by a release and nothing else, and at every loop head the state is CON_INIT if and only if no interface is claimed |
| `MainLoop.TurnDoes` | usStorage.c:378-443 | What each turn does: a plugged phone with a connection, old or new, is received from exactly once, what came is handled at once if and only if the receive returned OK with something to handle, and a notice ends the turn if and only if the phone is still plugged and connected; a connect is tried if and only if an interface is claimed without a connection |
| `MainLoop.TimeoutChangesNothing` | usStorage.c:405-436 | A timeout of a receive changes neither the state nor the claim |
| `MainLoop.RunAnswers` | usStorage.c:411-429 | In every run each message received is handled by the very next call, and nothing else is handled: as many handle calls as successful receives that bring something |
| `MainLoop.RunDoes` | usStorage.c:378-443 | So over runs, turn by turn: the calls of every turn of every run, and the state it ends in, are those |
| `MainLoop.ClaimsAlternate` | usProtocol.c:1344-1370 | At no time is more than one interface claimed or one released twice, and a turn that ends with the phone unplugged leaves none claimed |
| `MainLoop.Daemon.PhoneRelease` | usProtocol.c:1344-1370 | A release gives up the interface if one is claimed, and forgets the phone |
| `MainLoop.Daemon.PhoneDetect` | usProtocol.c:1144-1325 | Detection releases first and then claims the phone found, if any |
| `MainLoop.Daemon.Once` | usStorage.c:378-443 | One turn of the loop in place, through each of its exits |
| `MainLoop.Daemon.RunTurns` | usStorage.c:378-443 | The loop in place, for any number of turns |

## Left out

- `MuxDevice.Phone.BulkReceive`: an inbound transfer that fails is taken to leave the buffer alone, although a timeout may come after a part of it.
- `MainLoop.Daemon.PhoneDetect`: of detection only "claimed" or "not claimed" remains; which interface of which device is chosen is a foreign call.
- `Storage.RoundTrip`: nothing is sent between the repeated calls; a plug notice sent there into a closed window would take the next packet for its acknowledgement.
- `MuxDevice.Phone.SendTCP`: models the form all callers use, with the payload, if any, right behind the header; the branch of `itunes_SendTCP` for a payload elsewhere (usProtocol.c:414-424) is reached only with length 0.
- `MuxDevice.Phone.RecvProPackage`: a packet shorter than its own headers, or a payload larger than the caller's buffer, makes the C code leave its buffers; the model gives such inputs the status `Undefined` and says no more.
- `Sending.WindowKept`: is about one call; each call starts again from the last advertised window, so nothing bounds two calls together.
- `Md5.Context.Update`: takes the lengths on which the unsigned index of its loop does not wrap; on the others, all within 64 bytes of 2^32, the C loop leaves its input.
- `Listing.ListHandle`: takes buffers of at least 278 bytes and full paths of at most 4094; in a smaller buffer a record does not fit (the program's is over 256 KB).
- `DiskFile.Disk.WriteHandle`: takes a size that lies within the request, and a path whose copy is safe; the C code checks neither.
- `DiskFile.Disk.ReadHandle`: takes a path whose copy ends, with a zero or by its length, inside the buffer and inside its own 4096 bytes; the C code does not check it.
- `DiskFile.WriteThenRead`: is about regular files found by their path; permissions, directories, links and offsets beyond the largest file size are left out.
- `Label.RtrimWhitespace`: whitespace is that of the C locale.
- `Mailbox.InterleavingsAreAtomic`: what `disk_aciton_func` and the LUN and INFO replies do inside the registry under the same mutex is their result only.
- `DiskManager.Manager.ActionFunc`: the object keeps its disks as a sequence of records, not as nodes linked through `list.h`, so aliasing between the registry's nodes is not part of it.
- `DiskManager.Manager.RemoveDisk`: removes from that sequence; the unlinking and freeing of nodes during the iteration is proved over real nodes in `ListHead.UnlinkDisk`.
- `Registry.SafeRemoveThenWake`: has no branch for a mount point that cannot be generated, because `generate_mount_point` always returns success.
- `Registry.RegistryInvariant`: makes no claim about `disk_num`, which removal never decrements.
- libusb, switching Android phones to accessory mode and device descriptors.
- Sockets, netlink, udev parsing, IPC, logging, daemonizing and process spawning: plumbing without state of its own.
- SCSI ioctls, `/proc` and sysfs parsing, mount options and mount points: their answers are oracles.
- The superblock probers (exFAT, NTFS, HFS, FAT): they share one buffer that is cleared on each read; only whether they recognise a partition remains.
- `disk_getdisk_info`, and the CREATE, DELETE, MOVE, FILE_INFO, firmware information and clock commands: one call each, without state across calls.
- The sine that defines the table of RFC 1321 is not modelled: its 64 constants stand as the RFC prints them.
- Reuse of a descriptor number after a failed firmware write closed it while it was still held.
- Device names of digits only, for which the C code walks below its buffer.
