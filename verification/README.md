# Meridian: verified models of the relay, the viewer transport and the encoder

A Dafny 4.11 project with machine-checked properties of four parts of Meridian. `dafny verify dfyconfig.toml`
checks all of it.

* **The TCP-over-USB relay** (`meridian-relay/src/daemon`). Frames and segments (`MuxCodec`), the resynchronising
  reassembler (`Reassembler`), both together (`Pipeline`), the device object and its handlers (`MuxDevice`), every run
  of a device with handlers as atomic steps (`MuxRuns`, `MuxStreams`, `MuxFlow`, `MuxFrames`), runs in which a send and
  its count are separate steps (`MuxRaces`), and runs with the channel of client bytes in front of the device
  (`MuxChannel`).
* **Device scanning** (`device_scanner.rs`, `mod.rs`). One scan (`Scanner`), whole histories of scans (`ScannerRuns`) and
  the reconcile loop (`Reconcile`).
* **The viewer transport** (`probe/ProbeApp/TinyHTTPServer.swift`, `tools/ius.py`). The WebSocket frame codec of sections
  5.2 and 5.3 of RFC 6455 with both readers (`WebSocket`), the outbound queue as interleaved locked sections (`Outbox`),
  and what that queue makes of the encoder's messages (`Delivery`).
* **The encoder** (`probe/ProbeApp/H264Stream.swift`). Session life and viewer joins (`Encoder`), and the movie fragment
  builder of sections 8.8.7, 8.8.8 and 8.8.12 of ISO/IEC 14496-12 (`Fragment`).

Objects the programs update in place are classes here (`PacketReassembler`, `Mux`, `DeviceScanner`, `DeviceManager`,
`Receiver`, `Connection`, `H264Stream`). Each method is proved equal to a function on the object's abstract value, and
the functions are the steps of the state machines whose runs the main theorems quantify over. Hash-map iteration order,
USB failures, disconnects and thread interleaving are unconstrained choices. Machine integers that wrap do so explicitly
(`Wrap16`, `Wrap32`).

## What the proofs say about the code

Promises that hold only under a condition are proved together with that condition, in both directions.

* A short-header TCP frame reads back as itself exactly when its two ports do not spell one of the two magic numbers
  (source port 0xFEED or 0xFACE with destination port 0xFACE). Otherwise eight bytes of it are taken for header
  (`SegmentRoundTrip`, `FullPipeline`).
* The clear at the end of `feed`, which its comment describes as the overflow policy, can fire only for caps below seven
  bytes (`ClearNeverFires`). Chunking independence holds for caps of seven and up, and for zero (`ChunkingExactly`).
* The relay does not look at sequence numbers. With a device that tells the truth about its stream, the client's bytes are
  a prefix of it and the acknowledgement counts them, exactly as long as every segment buffered starts at the
  acknowledgement in force (`StreamKeptExactly`). A repeated segment is buffered twice (`RepeatBufferedTwice`); if the
  stream happens to repeat there as well the bytes are still a prefix, and only the acknowledgement is wrong. A device
  that counts its own bytes and respects the window need not look at acknowledgement numbers (`WindowKeepsStream`).
* Of the three windows advertised, only the one computed from free space is always honest. The handshake's constant needs
  16776960 free bytes and the constant in data frames 131072 (`AdvertisedWindows`). With the default buffer a device that
  trusts its handshake can lose bytes in the middle of its stream and have them acknowledged (`DefaultBufferOverflows`).
* `Dead` and `CloseWait` hold only until the next SYN-ACK, which connects again (`DisconnectsFreeze`).
* `send_client_data` and `send_window_update` send under one lock and count under another. Frame numbers stay consecutive
  exactly when no SYN goes out between a successful send and its count (`NumberingUnderRaces`). Data segments keep tiling
  the client's stream exactly when no send is counted on a connection opened after it, on the same port
  (`TilingUnderRaces`). One run breaks both (`RacesHappen`), another only the second (`ChargedInSilence`).
* Client bytes wait in the device's channel under their port only. A port that is freed while bytes for it are queued can
  send them on the next client's connection, and only then (`CleanRemovalExactly`). The next connection's record can
  hold them in that case, and when they were sent and not yet counted, and only then (`IdleRemovalExactly`).
* A viewer's queue can discard the init segment and sync fragment of its greeting, which are never enqueued again
  (`GreetingCanBeLost`); the exact condition is `GreetingKeptExactly`.
* The data offset patch searches for a placeholder. It finds the right place exactly when the fragment number is not the
  placeholder and no four bytes of the decode time equal it (`DataOffsetExactly`).

## Model

| member | source | states |
|---|---|---|
| `MuxCodec.FrameHeaderFields` | meridian-relay/src/daemon/mux.rs:614-634 | The fields of a built frame read from its bytes: protocol, the whole frame's length modulo 2^32, and for the extended header the magic and both counters |
| `MuxCodec.TcpFrameStart` | meridian-relay/src/daemon/mux.rs:614-634 | A TCP frame on the wire starts with 6, its whole length and, in the extended form, 0xFEEDFACE and both counters |
| `MuxCodec.SetupFrameBytes` | meridian-relay/src/daemon/mux.rs:647-649 | A SETUP frame on the wire is protocol 2 with both counters and the single byte 7 |
| `MuxCodec.VersionRequestWords` | meridian-relay/src/daemon/mux.rs:637-645 | The version request on the wire: twenty bytes, protocol 0, asking for 2.0 |
| `MuxCodec.TcpLayout` | meridian-relay/src/daemon/mux.rs:660-687 | Every field of a TCP frame read from its own place in the bytes; the data offset nibble times four leads from the TCP header to the payload, the low twelve bits are the flags given, the last four header bytes are zero |
| `MuxCodec.FlagBits` | meridian-relay/src/daemon/mux.rs:200-223 | FIN, SYN, RST and ACK are tested as bits 0, 1, 2 and 4 of the flags |
| `MuxCodec.ShortHeaders` | meridian-relay/src/daemon/mux.rs:516-538 | What is read from headers cut short |
| `MuxCodec.OtherProtocols` | meridian-relay/src/daemon/mux.rs:540-579 | Control bodies come back as they are, short version bodies read as zero, short TCP bodies and unknown protocols are rejected as such |
| `Bytes.WrapMeans` | meridian-relay/src/daemon/mux.rs:702-704 | Counters are the identity below their width and repeat with it |
| `MuxCodec.ParseBuilt` | meridian-relay/src/daemon/mux.rs:516-579 | A built frame of any protocol parses to its own body, or with eight bytes lost, exactly by the magic test on a short-header body |
| `MuxCodec.SegmentRoundTrip` | meridian-relay/src/daemon/mux.rs:660-687 | Parsing a built TCP packet returns ports, numbers, flags, window and payload if and only if the frame is unambiguous; flags below 256 survive |
| `MuxCodec.ConfusedSegment` | meridian-relay/src/daemon/mux.rs:516-538 | A concrete segment from port 0xFACE to port 0xFACE that is rejected as an invalid header |
| `MuxCodec.TcpHeaderParsed` | meridian-relay/src/daemon/mux.rs:425-440 | The twenty header bytes parse back to every field and leave the payload |
| `MuxCodec.TruncatedRejected` | meridian-relay/src/daemon/mux.rs:540-579 | Every proper prefix of a built frame is rejected as an invalid header |
| `MuxCodec.HandshakeFramesParse` | meridian-relay/src/daemon/mux.rs:637-649 | Version request and SETUP frame parse to what they announce, for any counters |
| `MuxCodec.ScaledWindow` | meridian-relay/src/daemon/mux.rs:709-711 | The largest number of 256-byte units within the free space, saturating at 16 bits, so never more than is free |
| `Reassembler.PacketReassembler.FeedChunk` | meridian-relay/src/daemon/mux.rs:463-501 | The loop returns the packets and leaves the buffer of the cut of everything buffered so far, clear included |
| `Reassembler.Conservation` | meridian-relay/src/daemon/mux.rs:466-489 | Every byte goes, in order, to exactly one of a packet, a one-byte drop or the retained rest |
| `Reassembler.OnlyFrames` | meridian-relay/src/daemon/mux.rs:471-489 | Every packet emitted is a whole frame within the cap whose length field is its own size |
| `Reassembler.RestBounded` | meridian-relay/src/daemon/mux.rs:466-489 | The retained rest is shorter than the larger of eight and the cap |
| `Reassembler.ClearNeverFires` | meridian-relay/src/daemon/mux.rs:491-498 | No buffer makes the final clear fire if and only if the cap is at least seven |
| `Reassembler.SplitAppend` | meridian-relay/src/daemon/mux.rs:463-489 | Cutting a prefix, then its rest with what follows, is cutting the whole |
| `Reassembler.AnyChunking` | meridian-relay/src/daemon/mux.rs:463-501 | From any retained buffer, any split of a stream gives the same packets and the same buffer as one feed |
| `Reassembler.ChunkingExactly` | meridian-relay/src/daemon/mux.rs:463-501 | Two chunks are as good as one for all inputs if and only if the cap is at least seven or zero |
| `Reassembler.Resync` | meridian-relay/src/daemon/mux.rs:471-489 | Exactly the bytes before a frame are dropped and the frame comes next if and only if no length window before it is plausible |
| `Pipeline.ReassembledFrames` | meridian-relay/src/daemon/mux.rs:463-501 | Built segments that fit come back whole and in order from any chunking, nothing left over |
| `Pipeline.FullPipeline` | meridian-relay/src/daemon/mux.rs:463-687 | Build, concatenate, chunk, reassemble, parse is the identity on segments if and only if every segment is unambiguous |
| `MuxDevice.Mux.constructor` | meridian-relay/src/daemon/mux.rs:103-113 | A new device has no connections, version 1 and both counters at one |
| `MuxDevice.Mux.StartConnect` | meridian-relay/src/daemon/mux.rs:127-150 | The least free port in 1024..65534 gets a fresh connection with the destination and tag given, not accepted yet, and every other connection stays; it fails if and only if all are taken and then changes nothing |
| `MuxDevice.Mux.BuildSyn` | meridian-relay/src/daemon/device_manager.rs:569-602 | The second locked section of a connect: the SYN of a port already taken, the counter advanced only for the extended header, nothing if the connection is gone |
| `MuxDevice.Mux.Connect` | meridian-relay/src/daemon/device_manager.rs:552-609 | Both sections with nothing in between: the least free port, a fresh connection to the destination given, and its SYN; a SYN that cannot be sent is reported and leaves the port taken |
| `MuxDevice.Mux.FindConnection` | meridian-relay/src/daemon/mux.rs:174-195 | An exact match if there is one, else a loose one, else none, for any iteration order |
| `MuxDevice.Mux.HandleTcpPacket` | meridian-relay/src/daemon/mux.rs:152-264 | New state, event and reply bytes for SYN-ACK, RST, FIN, accepted, overflowing and unroutable segments |
| `MuxDevice.Mux.ProcessDevicePacket` | meridian-relay/src/daemon/device_manager.rs:388-485 | Version, TCP, other and malformed packets: state, remembered peer counter and the frames sent |
| `MuxDevice.Mux.SendClientData` | meridian-relay/src/daemon/device_manager.rs:487-550 | The data frame for a connected port; record and counters advance only when the write succeeds |
| `MuxDevice.Mux.SendWindowUpdate` | meridian-relay/src/daemon/device_manager.rs:315-372 | The window update for an active port; the counter advances only when the write succeeds |
| `MuxDevice.Mux.DrainInbound` | meridian-relay/src/daemon/connection.rs:600-626 | The locked section of the proxy loop: exit, fail, wait or take the whole buffer, the taken bytes leaving it |
| `MuxDevice.Mux.RemoveConnection` | meridian-relay/src/daemon/connection.rs:579-585 | The connection's entry goes and nothing else changes |
| `MuxDevice.Mux.CleanupConnections` | meridian-relay/src/daemon/device_manager.rs:374-386 | Every connection becomes dead with its buffers and counters as they are |
| `MuxDevice.ReceiveEffect` | meridian-relay/src/daemon/mux.rs:198-264 | Only the chosen connection changes; its outbound side never does; the counter moves exactly with a reply; the acknowledgement moves only with accepted data or a SYN-ACK |
| `MuxDevice.ReplyAddressed` | meridian-relay/src/daemon/mux.rs:204-250 | Every reply is an empty ACK to the connection's own destination, acknowledging what the connection now has |
| `MuxDevice.ReceiveTells` | meridian-relay/src/daemon/mux.rs:218-262 | The event of every kind of segment, by the bits of its flags: connected under the connection's own tag, disconnected, readable, unknown, or none |
| `MuxDevice.RoutingByPorts` | meridian-relay/src/daemon/mux.rs:174-195 | Which connections a segment may reach, in terms of its two ports and theirs alone |
| `MuxDevice.PeerCounterRead` | meridian-relay/src/daemon/device_manager.rs:446-455 | The peer counter becomes the second counter of an extended frame and stays for a short one |
| `MuxDevice.DrainFinds` | meridian-relay/src/daemon/connection.rs:604-626 | What the proxy finds for each state of its connection |
| `MuxFrames.FramesFitVersion` | meridian-relay/src/daemon/device_manager.rs:522-531 | Over runs: frames logged before version 2 is agreed have the eight-byte header and no counters, frames after have the sixteen-byte header with the relay's counter and the latest one read from the peer, one before any |
| `MuxFrames.FrameFields` | meridian-relay/src/daemon/mux.rs:204-250 | Flags, numbers, window and payload of every frame by its kind, with the two constant windows as numbers and a data frame carrying exactly the client's bytes |
| `MuxFrames.FramesReachDestination` | meridian-relay/src/daemon/mux.rs:136-148 | Over runs: from opening to removal every frame for a port goes to the destination it was opened to, and no data is sent before a SYN-ACK |
| `MuxFrames.ConnectedUnderTag` | meridian-relay/src/daemon/mux.rs:200-217 | Over runs: the SYN-ACK is reported under the tag the connection was opened with |
| `MuxFrames.ClientBytesSent` | meridian-relay/src/daemon/device_manager.rs:487-550 | Over runs, end to end: the data segments that reached the device on a connection carry exactly the bytes its client sent while connected, in order, tiling from zero |
| `MuxFlow.DisconnectsFreeze` | meridian-relay/src/daemon/connection.rs:600-636 | Over runs: from a reset, a FIN or the loss of the device until the next SYN-ACK the proxy takes nothing, what the client was and will be written stays as it was, and no client byte is sent; the SYN-ACK revives the connection |
| `MuxRuns.WiredAlways` | meridian-relay/src/daemon/mux.rs:127-150 | In every state of every run each connection is stored under its own source port, within 1024..65534 |
| `MuxRuns.RoutingIsolation` | meridian-relay/src/daemon/mux.rs:174-198 | In every run a segment that matches a connection exactly goes to that one whatever the map order, and no other connection changes |
| `MuxRuns.ClientToDeviceTiling` | meridian-relay/src/daemon/device_manager.rs:487-550 | In every run the data segments sent on a connection tile its stream from zero, their payloads are its record, and its counter is the record's length modulo 2^32 |
| `MuxRuns.TilesPointwise` | meridian-relay/src/daemon/device_manager.rs:518-547 | Each segment is numbered with the bytes of all segments before it, modulo 2^32 |
| `MuxRuns.FrameNumbering` | meridian-relay/src/daemon/device_manager.rs:407-429 | In every run and for every pattern of failed writes each frame since SETUP carries the count of numbers used before it, modulo 2^16 |
| `MuxRuns.FrameNumbersExact` | meridian-relay/src/daemon/device_manager.rs:536-549 | With all writes succeeding the k-th frame after SETUP carries k modulo 2^16, over all connections and kinds |
| `MuxRuns.InboundEffect` | meridian-relay/src/daemon/mux.rs:200-254 | What any step can do to a connection's buffer, acknowledgement and permitted edge |
| `MuxRuns.WindowAlways` | meridian-relay/src/daemon/mux.rs:225-250 | In every interleaving no permitted byte lies beyond what the buffer has room for, and the buffer is within its cap |
| `MuxRuns.ReceiveWindowSoundness` | meridian-relay/src/daemon/device_manager.rs:315-372 | A device that stays within the furthest edge permitted to it, from a start within the cap, never reaches the overflow branch |
| `MuxStreams.DeviceToClientStream` | meridian-relay/src/daemon/connection.rs:600-636 | In every interleaving, written, in-hand and buffered bytes are a prefix of the device's stream, the acknowledgement counts them, and the buffer is within the cap |
| `MuxStreams.AcksCountAccepted` | meridian-relay/src/daemon/mux.rs:200-254 | Every frame sent after the SYN-ACK acknowledges exactly the bytes accepted, and an answer to it is routed back to the same connection |
| `MuxStreams.PrefixKeptExactly` | meridian-relay/src/daemon/mux.rs:224-253 | A truthful segment that is buffered keeps the prefix and its acknowledgement if and only if it starts at the acknowledgement in force, a test the code does not make |
| `MuxStreams.StreamKeptExactly` | meridian-relay/src/daemon/mux.rs:200-254 | With a truthful device the stream theorem holds in every state since the connection was opened if and only if every data segment buffered in between started at the acknowledgement then in force |
| `MuxFlow.RepeatBufferedTwice` | meridian-relay/src/daemon/mux.rs:224-253 | For every stream a concrete run of truthful segments in which a repeated one is buffered twice: it is not in order, the client has two bytes and the stream theorem fails |
| `MuxFlow.WindowKeepsStream` | meridian-relay/src/daemon/device_manager.rs:315-372 | A device that sends its stream in order, counting its own bytes, and stays within the edge permitted to it has every segment buffered and the client's bytes are a prefix of its stream, in every interleaving |
| `MuxStreams.HonestExactly` | meridian-relay/src/daemon/mux.rs:225-236 | A window permits no overflowing payload if and only if it fits the free space |
| `MuxStreams.AdvertisedWindows` | meridian-relay/src/daemon/mux.rs:204-250 | The computed window is always honest; each of the two constants is honest if and only if that many bytes are free |
| `MuxFlow.HandshakeWindowOverflows` | meridian-relay/src/daemon/mux.rs:204-236 | For any buffer between one and two blocks, a run in which a device sends in order and well within the window of its handshake ACK: the second block is dropped, the byte after it buffered, the client's bytes have a hole and the dropped ones are acknowledged |
| `MuxFlow.DefaultBufferOverflows` | meridian-relay/src/config.rs:19 | The default buffer of one mebibyte is such a buffer |
| `MuxFlow.EdgeCanShrink` | meridian-relay/src/daemon/mux.rs:709-711 | A concrete run in which a window update permits up to byte 512 and the next acknowledgement only up to byte 257 |
| `MuxRaces.NumberingUnderRaces` | meridian-relay/src/daemon/device_manager.rs:495-549 | With sends, version exchanges and their second halves interleaved with other tasks and any write failing: frames since the latest exchange carry 1, 2, 3, …, counting those that use up a number, if and only if since then no SYN went out between a successful send and its count; only SYNs come between SETUP and those frames |
| `MuxRaces.TilingUnderRaces` | meridian-relay/src/daemon/device_manager.rs:495-549 | With any write failing: the counter is always the record's length; successful segments tile from zero and spell the record if and only if no step of the run counted on this connection a send made on an earlier one of its port |
| `MuxRaces.ChargedExactly` | meridian-relay/src/daemon/device_manager.rs:542-549 | A connection's record holds stray bytes if and only if a send was counted on it that went out before it was opened |
| `MuxRaces.RacesHappen` | meridian-relay/src/daemon/device_manager.rs:495-549 | A concrete run, a reconnect and its SYN between a send and its count, that repeats a frame number and charges the new connection with the old one's byte |
| `MuxRaces.ChargedInSilence` | meridian-relay/src/daemon/device_manager.rs:560-602 | A concrete run, the count between taking the port and building the SYN, that charges the new connection while every frame number is right |
| `MuxRaces.ShiftedAlways` | meridian-relay/src/daemon/device_manager.rs:536-549 | In every racing run the successful segments tile the record shifted by the stray bytes |
| `MuxChannel.OwnBytesExactly` | meridian-relay/src/daemon/device_manager.rs:223-236 | In every run with the channel between proxies and the device, and sends counted later: what was sent on a connection is its own client's if and only if no message of another client was sent on it, and what its record holds is if and only if none was counted on it |
| `MuxChannel.CleanRemovalsSuffice` | meridian-relay/src/daemon/connection.rs:579-585 | If a port is never freed with a message for it queued, every connection of the port sends only its own client's bytes; if none is sent and uncounted then either, its record holds only those |
| `MuxChannel.CleanRemovalExactly` | meridian-relay/src/daemon/connection.rs:579-585 | After freeing a port every continuation keeps what its next connection sends its own client's if and only if no message for the port was queued at that moment |
| `MuxChannel.IdleRemovalExactly` | meridian-relay/src/daemon/device_manager.rs:536-549 | After freeing a port every continuation keeps the record of its next connection its own client's if and only if no message for the port was queued and none was sent and not yet counted |
| `MuxChannel.LeakFollows` | meridian-relay/src/daemon/connection.rs:643-655 | If one was queued, a continuation in which the next client of the port is accepted and the old client's bytes go out on its connection |
| `MuxChannel.MiscountFollows` | meridian-relay/src/daemon/device_manager.rs:542-549 | If one was sent and not yet counted, a continuation in which it is counted on the next client's connection |
| `MuxChannel.LeakHappens` | meridian-relay/src/daemon/connection.rs:643-655 | A concrete run from the device's start in which one client's byte is sent on another's connection |
| `MuxChannel.MiscountHappens` | meridian-relay/src/daemon/device_manager.rs:542-549 | A concrete run from the device's start in which the channel is clean when the port is freed and yet the next client's record holds the byte |
| `Scanner.DeviceScanner.constructor` | meridian-relay/src/daemon/device_scanner.rs:49-56 | An empty scanner whose first id is one |
| `Scanner.DeviceScanner.Observed` | meridian-relay/src/daemon/device_scanner.rs:128-176 | One observation attaches, replaces or confirms at its port, in agreement with the specification for any map order |
| `Scanner.DeviceScanner.DetachAbsent` | meridian-relay/src/daemon/device_scanner.rs:178-198 | The absence loop in any order removes exactly the devices at the limit, counts the others, and reports each removal once |
| `Scanner.DeviceScanner.Diff` | meridian-relay/src/daemon/device_scanner.rs:117-201 | Devices, counters and next id after a scan are fixed by the old state and the observations; only the order of absence detaches is open |
| `Scanner.DeviceScanner.ScanOnce` | meridian-relay/src/daemon/device_scanner.rs:67-85 | A failed enumeration changes nothing and reports nothing |
| `Scanner.ObserveAllValid` | meridian-relay/src/daemon/device_scanner.rs:128-176 | Observations touch only the ports seen: others keep device and counter, seen ports have no counter |
| `Scanner.ScanValid` | meridian-relay/src/daemon/device_scanner.rs:117-201 | Distinct ports, handed-out ids and bounded counters are kept by every scan, duplicate observations included |
| `ScannerRuns.CountersCount` | meridian-relay/src/daemon/device_scanner.rs:178-198 | After any history a known device's counter is the number of scans in a row that missed its port |
| `ScannerRuns.DetachTiming` | meridian-relay/src/daemon/device_scanner.rs:117-201 | A known device is removed for absence if and only if its port was missing from the last two scans in a row; unreadable counts as present |
| `ScannerRuns.MissCountersBounded` | meridian-relay/src/daemon/device_scanner.rs:8-12 | After any history counters belong to known devices and are never more than one, and ports are distinct |
| `ScannerRuns.ScanDeterminism` | meridian-relay/src/daemon/device_scanner.rs:125-200 | Two reports of the same scan agree on attaches and replacements in order and are permutations of each other |
| `ScannerRuns.ScanIdentity` | meridian-relay/src/daemon/device_scanner.rs:128-176 | A port holds the serial last read there; a device seen with no other serial keeps id and record; an unreadable new device waits |
| `ScannerRuns.AttachedAsSeen` | meridian-relay/src/daemon/device_scanner.rs:128-176 | A newly attached device has the serial, product and port of one of the scan's observations; a known one keeps its record |
| `ScannerRuns.NeverTwoAtAPort` | meridian-relay/src/daemon/device_scanner.rs:134-153 | Whoever follows the changes one by one never sees two devices at one port: a replacement is a detach, then an attach |
| `ScannerRuns.EventReplay` | meridian-relay/src/daemon/device_scanner.rs:129-200 | Folding the returned changes over the old map gives the new map |
| `ScannerRuns.LogExplainsState` | meridian-relay/src/daemon/device_scanner.rs:129-200 | Over any run the concatenated reports replay from nothing to the current devices and next id |
| `ScannerRuns.IdLifecycle` | meridian-relay/src/daemon/device_scanner.rs:129-200 | Ids are attached in strictly increasing order, each once, and detached at most once, after the attach and never again |
| `Reconcile.SurvivorNotDetached` | meridian-relay/src/daemon/device_scanner.rs:117-201 | A device known before and after a scan is not detached by it on the way |
| `Reconcile.DeviceManager.ApplyChanges` | meridian-relay/src/daemon/mod.rs:97-108 | After the changes only devices the replay knows are managed; undetached ones are lost only to disconnects |
| `Reconcile.DeviceManager.Retry` | meridian-relay/src/daemon/mod.rs:110-124 | Every known id is managed afterwards unless it was disconnected or its open failed |
| `Reconcile.DeviceManager.Round` | meridian-relay/src/daemon/mod.rs:91-124 | After a round managed ids are known; a missing known id was disconnected or refused; one managed before is lost only to a disconnect; a new one was opened; and a round without disconnect or failed open leaves exactly the known ids managed |
| `Reconcile.DeviceManager.Follow` | meridian-relay/src/daemon/mod.rs:91-124 | Over any sequence of scans, failures included, the scanner is where the successful scans lead, the reports are a run's, and managed ids are known |
| `Reconcile.DeviceManager.AddDevice` | meridian-relay/src/daemon/device_manager.rs:79-86 | Adding a managed device does nothing; adding another manages it exactly when the open succeeds |
| `Reconcile.DeviceManager.RemoveDevice` | meridian-relay/src/daemon/device_manager.rs:288-296 | The id is no longer managed, the others are |
| `Reconcile.DeviceManager.Disconnects` | meridian-relay/src/daemon/device_manager.rs:300-311 | A USB disconnect drops exactly the ids it names |
| `WebSocket.MaskTwice` | probe/ProbeApp/TinyHTTPServer.swift:326-329 | Masking is undone by masking with the same key |
| `WebSocket.MaskBits` | probe/ProbeApp/TinyHTTPServer.swift:326-329 | A masked byte differs from the payload byte in exactly the bits set in the key byte of its position |
| `WebSocket.MaskZero` | probe/ProbeApp/TinyHTTPServer.swift:326-329 | A zero key changes nothing |
| `Bytes.XorAt` | tools/ius.py:959-960 | Exclusive or of two bytes, bit by bit |
| `WebSocket.FrameBytes` | probe/ProbeApp/TinyHTTPServer.swift:221-235 | Every byte of a server's and a client's frame: final bit and opcode, length in one, two or eight bytes, mask bit and key, payload (section 5.2 of RFC 6455) |
| `WebSocket.Unmask` | probe/ProbeApp/TinyHTTPServer.swift:326-329 | The unmasking loop applies the key to every byte by position modulo four |
| `WebSocket.ServerRoundTrip` | probe/ProbeApp/TinyHTTPServer.swift:221-235 | Any encoded frame followed by any bytes parses to its opcode and payload and leaves those bytes |
| `WebSocket.ClientRoundTrip` | probe/ProbeApp/TinyHTTPServer.swift:304-334 | The same for masked frames, whatever the key |
| `WebSocket.ParseStable` | probe/ProbeApp/TinyHTTPServer.swift:304-334 | A complete frame parses the same whatever follows |
| `WebSocket.DecodeAppend` | tools/ius.py:928-970 | Decoding part of a stream, then its rest with what follows, is decoding the whole |
| `WebSocket.RestIncomplete` | tools/ius.py:936-960 | What a reader keeps holds no complete frame and decodes to nothing |
| `WebSocket.DecodeEncoded` | tools/ius.py:898-915 | Frames encoded one after another decode to exactly those frames |
| `WebSocket.Receiver.ParseFrame` | probe/ProbeApp/TinyHTTPServer.swift:304-334 | One frame is taken exactly when complete and the buffer is otherwise untouched; lengths beyond the platform's counts trap |
| `WebSocket.Receiver.ProcessFrames` | probe/ProbeApp/TinyHTTPServer.swift:284-302 | The first complete frames are handled in order, up to sixteen or a close, and the buffer decodes to exactly the others |
| `WebSocket.FrontReaction` | probe/ProbeApp/TinyHTTPServer.swift:291-300 | A client's close, ping or other frame at the front of the buffer is answered by a close, by a pong of the same payload, or delivered, as text for opcode one |
| `WebSocket.FrontEvent` | tools/ius.py:962-968 | The same for the host's reader, which passes the opcode on |
| `WebSocket.EventsMean` | tools/ius.py:936-968 | Every frame up to the first close has its event, in order, and nothing comes after |
| `WebSocket.UntilEmptyMeans` | tools/ius.py:931-935 | What counts as received is everything before the first empty read |
| `WebSocket.LongLength` | probe/ProbeApp/TinyHTTPServer.swift:314-318 | The accumulation loop reads the eight bytes as one big-endian number |
| `WebSocket.HandledMeans` | probe/ProbeApp/TinyHTTPServer.swift:284-302 | A call stops only at the budget, the end of the frames or a close, and nothing before its last frame is a close |
| `WebSocket.ReadFrames` | tools/ius.py:928-970 | The events are those of the concatenation of what was received before the end, however the reads cut it |
| `WebSocket.DrainBuffer` | tools/ius.py:936-967 | The inner loop handles every complete frame up to a close and keeps exactly the rest |
| `Outbox.Connection.EnqueueLocked` | probe/ProbeApp/TinyHTTPServer.swift:178-202 | Accepts a frame unless closed, applies the stale rule, reports overflow beyond 6 MiB and a wanted key frame |
| `Outbox.Connection.CloseLocked` | probe/ProbeApp/TinyHTTPServer.swift:210-219 | Closing empties the queue once |
| `Outbox.Connection.PumpLocked` | probe/ProbeApp/TinyHTTPServer.swift:237-247 | Claims the flag exactly when free and open, and then takes the whole queue |
| `Outbox.Connection.SendBatch` | probe/ProbeApp/TinyHTTPServer.swift:253-256 | The bytes given to the socket are the batch's frames encoded one after another |
| `Outbox.Connection.ReleaseLocked` | probe/ProbeApp/TinyHTTPServer.swift:249-268 | The flag is given back and more work is reported exactly when open and not empty |
| `Outbox.CountedStep` | probe/ProbeApp/TinyHTTPServer.swift:178-268 | Every locked section keeps the byte count, closing, the single flusher and the bound of two binary frames |
| `Outbox.OrderedStep` | probe/ProbeApp/TinyHTTPServer.swift:178-268 | Every locked section keeps order and accounting: an accepted frame is kept or discarded, never both or neither |
| `Outbox.OutboxSafety` | probe/ProbeApp/TinyHTTPServer.swift:178-268 | In every interleaving: exact byte count, closed means empty, one send in flight, at most two binary frames waiting, kept frames an ordered duplicate-free part of the accepted, every other stale or dropped, and the bytes on the wire those of the frames handed over |
| `Outbox.SocketBytes` | probe/ProbeApp/TinyHTTPServer.swift:237-268 | The bytes the socket was given over all batches decode, with nothing left over, to exactly the frames handed over, accepted ones in order of acceptance |
| `Encoder.EncoderExclusivity` | probe/ProbeApp/H264Stream.swift:366-444 | In every interleaving at most one session is being created, running or draining, and a callback's number counts the session's fragments |
| `Encoder.ExclusiveAlways` | probe/ProbeApp/H264Stream.swift:366-444 | The flag is set exactly while a session is created or drained, and a callback belongs to the latest session |
| `Encoder.FaithfulAlways` | probe/ProbeApp/H264Stream.swift:503-553 | In every interleaving each registered viewer was enqueued everything it is owed, or is still among the running callback's targets |
| `Encoder.JoinOrder` | probe/ProbeApp/H264Stream.swift:503-553 | What is enqueued to each viewer is codec text, the matching init segment, a sync fragment, then every later fragment with consecutive numbers, up to the latest whenever no callback runs |
| `Encoder.ViewerStays` | probe/ProbeApp/H264Stream.swift:561-609 | A viewer stays registered from joining to its own leaving, whatever the others do; once a sync fragment went out it has joined, and whenever no callback runs every fragment of the session was enqueued to it |
| `Encoder.TargetsInOrder` | probe/ProbeApp/H264Stream.swift:534-544 | Fragments go out in the order of the viewers |
| `Delivery.GreetingKeptExactly` | probe/ProbeApp/TinyHTTPServer.swift:178-202 | Whatever pongs, replies and broadcasts share a viewer's queue, what it keeps holds codec text, the matching init segment and a sync fragment, in this order and before any other binary frame, if and only if no binary frame was enqueued while two or more frames waited, and the connection not closed, with a part of the greeting still queued; the bytes given to the socket then decode to such a list |
| `Delivery.NoneGoneExactly` | probe/ProbeApp/TinyHTTPServer.swift:182-188 | None of any given frames of a queue is discarded if and only if no stale drop and no closing happened while one of them was queued |
| `Delivery.GreetingCanBeLost` | probe/ProbeApp/H264Stream.swift:534-553 | A concrete run in which the stale rule discards the init segment and the sync fragment of a viewer that the encoder counts as joined |
| `Encoder.H264Stream.EnsureClaim` | probe/ProbeApp/H264Stream.swift:366-373 | The flag is claimed exactly when no session lives or is on its way |
| `Encoder.H264Stream.EnsureFinish` | probe/ProbeApp/H264Stream.swift:393-424 | A new session starts numbering afresh, a failed one leaves things as they were; both release the flag |
| `Encoder.H264Stream.TeardownClaim` | probe/ProbeApp/H264Stream.swift:429-434 | The session is taken for draining exactly when one lives and the flag is free |
| `Encoder.H264Stream.TeardownFinish` | probe/ProbeApp/H264Stream.swift:436-443 | The drained session is gone and the flag released |
| `Encoder.H264Stream.NumberFragment` | probe/ProbeApp/H264Stream.swift:503-524 | The next number, and an init segment that matches the decoder configuration |
| `Encoder.H264Stream.CollectTargets` | probe/ProbeApp/H264Stream.swift:534-544 | The loop picks joined viewers, and on a sync frame also new ones, which it marks joined |
| `Encoder.H264Stream.AddViewer` | probe/ProbeApp/H264Stream.swift:561-595 | A viewer is registered as not yet joined |
| `Encoder.H264Stream.RemoveViewer` | probe/ProbeApp/H264Stream.swift:597-609 | The viewer's entry goes, every other stays in order, and the count returned is one less exactly if there was such an entry |
| `Fragment.Layout` | probe/ProbeApp/H264Stream.swift:121-142 | Where number, decode time and data offset lie in the moof box, all bytes around them below 0x80 |
| `Fragment.FirstMarkIsOffset` | probe/ProbeApp/H264Stream.swift:139-146 | The search finds the data offset if and only if the sample's own numbers do not hold the placeholder |
| `Fragment.FragmentLayout` | probe/ProbeApp/H264Stream.swift:18-148 | An independent box reader finds the nested boxes with exact sizes and the payload in its own box |
| `Fragment.FragmentFields` | probe/ProbeApp/H264Stream.swift:121-148 | Read from the bytes: name, size, version and flags of all seven boxes, and number, decode time, count, data offset, duration, size and sync flags as given; the slice at the data offset of the sample's size is the payload |
| `Fragment.DataOffsetExactly` | probe/ProbeApp/H264Stream.swift:139-148 | The data offset is the payload's position if and only if there is no collision; the player's slice at the moof size plus eight is the payload either way |
| `Fragment.DecodeTimeCollides` | probe/ProbeApp/H264Stream.swift:143-146 | At a decode time of 0xDEADBEEF ticks the patch overwrites half of the decode time and leaves the placeholder as data offset |

## Left out

- Liveness and wake-ups. The data notification stores no permit and the pump's empty-batch path does not look again, so
  eventual delivery does not follow from the code. All results are safety properties.
- The timeout and the wait for the SYN-ACK, and the reference counts of managed devices. The port of a failed connect is
  never reclaimed by the code.
- "Device not found" paths of the handlers: a `Mux` object exists only while its device is attached.
- Builders that nothing sends or that use another length convention (`to_bytes`, `build_control_result`,
  `build_setup_connect`, `build_packet`), and the bodies of control packets beyond their bytes.
- MuxDevice.Mux.FindConnection: the target of the loose port match is any loose match, because the code takes the first in
  hash order.
- MuxDevice.Mux.Connect: runs of `MuxRuns` take the port and build the SYN in one step, as all its handlers are; `MuxRaces`
  and `MuxChannel` keep the two apart. Frames are logged in the order they are built, the order the counter is taken in;
  the USB write order of concurrent tasks is not modelled.
- MuxChannel.OwnBytesExactly: the channel's bound and the window updates in it, which carry no bytes, are not modelled, and
  a send that fails is one step.
- Scanner.DeviceScanner.Diff: device ids are unbounded, so the wrap of the 32-bit id counter is not modelled. The product id
  stays as it was when the serial is confirmed, as in the code.
- Reconcile.DeviceManager.AddDevice: opening the interface, its threads and channels are one success or failure, and
  disconnects happen between steps.
- Encoder.JoinOrder: states what is enqueued; what the viewer's queue keeps is `Delivery.GreetingKeptExactly`. It assumes
  that callbacks of a session come one at a time and that completing the frames of a session returns after its
  callbacks, as VideoToolbox promises. The frame-rate gate, forced key frames, tuning and the contents of the init
  segment are not modelled.
- Fragment.DataOffsetExactly: payloads whose box size does not fit 32 bits stop the original and are excluded.
- WebSocket.ServerRoundTrip: payload sizes are below 2^63, the platform's counts.
- MiniWS's own closed flag and socket errors; `read_ws_frames` ends at an empty read or a close frame only.
- Metrics, logging, libusb, tokio, sockets, property lists, pairing records, TLS and files.
- Sideloading, account login, provisioning and signing; HTTP servers, command line, configuration, pages, audio and packaging.
