# SICK safety scanner driver: a verified model

The driver talks to a laser scanner in two ways. Measurements arrive as UDP
datagrams, each a fragment of a larger packet; a merger reassembles them and a
parser decodes the result. Configuration goes over TCP in CoLa2 telegrams, one
command at a time, inside short sessions. This project models both paths in
Dafny and proves what they guarantee over whole runs.

| File | Contents |
|---|---|
| `ReadWriteHelper.dfy` | fixed-width integers, endian readers and writers, their inverse laws |
| `UDPPacketMerger.dfy` | the fragment merger as a class, specified by its history of arrivals |
| `UDPReassembly.dfy` | run properties of the merger: sort independence, non-interference, conservation, reachable states |
| `MeasurementStream.dfy` | the whole-run reassembly theorem for interleaved measurement instances |
| `LostFragments.dfy` | what fragments left by an unfinished instance do to a later one |
| `Fragmentation.dfy` | real datagrams that make up such instances, and a sort that can be plugged in |
| `ScannerDrivers.dfy` | the callback driver and the blocking driver, and their agreement |
| `Telegram.dfy` | the telegram printer, the packet parser, the settings block and its reader |
| `TCPPacketMerger.dfy` | the chunk merger and the receive loop's result |
| `Cola2Session.dfy` | commands, sessions, and the safety of every run of requests |
| `TelegramFormat.dfy` | the bytes of telegrams, replies and settings at their places, against printers and readers |
| `SessionProgress.dfy` | what requests do send, byte for byte and in order, and the verdicts on replies |
| `SettingsRoundTrip.dfy` | settings from printer to reader, through telegram, chunks and merger |
| `BitFlags.dfy` | bits, the three flag unpackers, and packing as their inverse |
| `IntrusionData.dfy`, `MeasurementData.dfy` | the two block decoders with loops, the second with its round trip |
| `IntrusionBlocks.dfy` | exactly which intrusion blocks are decoded to what was laid out |
| `ScanData.dfy` | the packet parser: header, gating, order of the blocks |
| `PacketFormat.dfy` | the bytes of a data packet at their places, and the round trips of whole packets |
| `CheckedParsing.dfy` | the same parser with every read checked, and when the two agree |
| `ScanDelivery.dfy` | from datagrams to delivered scans |

Objects that the driver mutates are classes here (`UDPPacketMerger`,
`TCPPacketMerger`, `Command`, `Cola2Session`, the two drivers, the stateful block
parsers). Their methods are proved against functions of the state or of the
history, and the laws are proved about those functions.

Conventions:

- Bytes and C++ integers are subset types of `int`; every conversion and every
  counter that can wrap is written out modulo its width.
- The library sort is a parameter: any function that orders by offset and keeps
  the elements. Every run theorem holds for all such functions, stable or not.
- The virtual `addTelegramData` and `processReply` of the command classes are
  dispatched over the datatype `CommandKind`.
- Angles that are printed are reals; angles that are decoded are exact ticks of
  1/4194304 degree.
- Fields that C++ leaves uninitialised are `None`, or of arbitrary value.
- A socket is the sequence of what its receive calls will yield. A timeout closes
  the TCP socket, as the deadline handler does.

What the code does and the model keeps as it is:

- `ChangeCommSettingsCommand` reports success exactly when the reply is *not* the
  acknowledgement of a method call (`src/cola2/ChangeCommSettingsCommand.cpp:84-87`).
- The settings printer puts the channel in byte 0 of its block, where the reader
  expects the version indicator, so the channel comes back under that name.
- The intrusion decoder's 16-bit offset wraps (`src/data_processing/ParseIntrusionData.cpp:113-130`).
  `IntrusionBlocks.RecoverableIff` says for which record sizes every block is still
  decoded right, and `WrappedBlockFails` gives sizes for which none is.
- The size check of the packet parser compares declared sizes, not offsets
  (`src/data_processing/ParseData.cpp:71-96`). `ScanData.SizeCheckNotEnough` is a
  packet of 52 bytes that passes it and is then read past its end;
  `CheckedParsing.CheckedScanIff` says exactly when no read goes past the end.
- Stale fragments of an unfinished instance stay under their identification
  (`src/data_processing/UDPPacketMerger.cpp:75-112`). When they carry bytes, a later
  instance with that identification is not deployed by its last piece
  (`LostFragments.DeployedDespiteStaleIff`). If the stale bytes and its first pieces
  happen to have the announced length, the merger hands out a packet mixed from both,
  and exactly then (`DeploysWhenLengthsAddUp`); `FirstPieceMixed` and
  `StaleFragmentSpoils` show both on three datagrams. The pieces left over are stale in
  turn, so later instances with the identification suffer the same, until their
  bytes reach 2^32 (`LaterInstancesSpoiled`).

## Model

| member | source | states |
|---|---|---|
| MeasurementStream.WholeRunReassembly | src/data_processing/UDPPacketMerger.cpp:57-168 | for every correct sort and every interleaving of any number of instances (pieces in any order, identifications reused after completion, instances possibly unfinished) the merger deploys exactly the payloads of the completed instances, byte for byte, in completion order |
| MeasurementStream.PendingIsIncomplete | src/data_processing/UDPPacketMerger.cpp:75-112 | after any such run the map holds exactly the received pieces of the instances still incomplete |
| MeasurementStream.DeployedExactlyAtCompletion | src/data_processing/UDPPacketMerger.cpp:93-126 | at every arrival of such a run the merger adds the payload if the piece was the last missing one, otherwise nothing |
| MeasurementStream.DeployedOnce | src/data_processing/UDPPacketMerger.cpp:93-112 | the merger's deployments are, one for one, those of the completed instances, each with its identification, its payload and exactly its pieces; every instance whose pieces have all arrived is among them once, and no other is |
| MeasurementStream.DeploymentsStep | src/data_processing/UDPPacketMerger.cpp:57-112 | one more arrival of a stream adds exactly the deployment it completes |
| MeasurementStream.NothingLeftBehind | src/data_processing/UDPPacketMerger.cpp:108-112 | when every started instance is complete the map is empty |
| MeasurementStream.CompletesExactly | src/data_processing/UDPPacketMerger.cpp:114-139 | the payload-length test succeeds exactly when the pieces received are all pieces of the instance |
| LostFragments.DeploysWhenLengthsAddUp | src/data_processing/UDPPacketMerger.cpp:75-139 | with any fragments pending under an identification, and the pieces of an instance with it arriving in any order among others: each piece deploys if and only if the stale bytes modulo 2^32 and the pieces up to it have the announced length together, and then it deploys just those, mixed by offset |
| LostFragments.DeployedDespiteStaleIff | src/data_processing/UDPPacketMerger.cpp:75-139 | so the last piece deploys if and only if the stale bytes are a multiple of 2^32, and it deploys exactly the instance's payload if and only if there are none |
| LostFragments.FirstPieceMixed | src/data_processing/UDPPacketMerger.cpp:114-126 | an input: behind one stale byte 7, the first piece of the instance 8, 9 deploys a packet of two bytes without the 9 |
| LostFragments.StaleFragmentSpoils | src/data_processing/UDPPacketMerger.cpp:114-126 | and the second piece, with which the instance is all there, deploys nothing |
| LostFragments.SpoilingDatagrams | src/data_processing/ParseDatagramHeader.cpp:52-62 | three datagrams on the wire are such an input |
| LostFragments.LengthAfterInstance | src/data_processing/UDPPacketMerger.cpp:93-139 | a whole instance leaves as many bytes behind as were stale, modulo 2^32, if some pieces were deployed with them, and otherwise its own as well |
| LostFragments.StaysSpoiled | src/data_processing/UDPPacketMerger.cpp:93-139 | stale bytes are never used up by any number of later whole instances, as long as all bytes together stay below 2^32 |
| LostFragments.LaterInstancesSpoiled | src/data_processing/UDPPacketMerger.cpp:75-139 | in a run, after any number of later instances of the identification and among any other traffic, the next one is still not deployed by its last piece, as long as stale and later bytes stay below 2^32 |
| LostFragments.CompletesIff | src/data_processing/UDPPacketMerger.cpp:114-139 | for the list of one identification, also after it was erased early: a fragment completes it if and only if stale bytes and fragments so far have the announced length, and the list is then exactly those |
| LostFragments.FiledAfterRun | src/data_processing/UDPPacketMerger.cpp:75-112 | the list under an identification depends on that identification's arrivals alone, from any reachable state |
| LostFragments.PayloadDespiteStale | src/data_processing/UDPPacketMerger.cpp:141-168 | sorting the pieces together with fragments that carry nothing, even at equal offsets, restores the payload |
| MeasurementStream.SortRestoresPayload | src/data_processing/UDPPacketMerger.cpp:141-168 | sorting all pieces, in whatever order they came, and joining them restores the payload |
| MeasurementStream.PendingMatchesStep | src/data_processing/UDPPacketMerger.cpp:75-112 | one arrival keeps the correspondence between pending lists and instances under way, and deploys exactly on completion |
| MeasurementStream.ArrivalDeploys | src/data_processing/UDPPacketMerger.cpp:93-112 | what one arrival deploys is the completed payload under its identification, or nothing |
| MeasurementStream.ExtendsOwnInstance | src/data_processing/UDPPacketMerger.cpp:75-91 | in a stream the list a fragment is appended to holds exactly the earlier pieces of its own instance |
| UDPReassembly.PerIdRefinement | src/data_processing/UDPPacketMerger.cpp:75-112 | projected on one identification, a run has the same pending list and deployments as a run fed only that identification's fragments |
| UDPReassembly.Conservation | src/data_processing/UDPPacketMerger.cpp:75-112 | for each identification the fragments received are, in order, those consumed by its deployments followed by those pending |
| UDPReassembly.ByteConservation | src/data_processing/UDPPacketMerger.cpp:128-168 | payload bytes received equal payload bytes pending plus payload bytes deployed |
| UDPReassembly.SortChoiceIndependence | include/sick_safetyscanners_base/datastructure/ParsedPacketBuffer.h:76-80 | with distinct offsets every arrival order and every two correct sorts give the same list and bytes |
| UDPReassembly.OrderIsUnique | src/data_processing/UDPPacketMerger.cpp:141-150 | with distinct offsets there is only one permutation ordered by offset |
| UDPReassembly.ReachableInvariant | src/data_processing/UDPPacketMerger.cpp:75-126 | every pending list of a reachable state is non-empty, filed under its own identification, the latest arrivals in order, and its 32-bit payload sum differs from its newest fragment's total |
| UDPReassembly.DeploymentsSound | src/data_processing/UDPPacketMerger.cpp:93-139 | every deployment of any run uses fragments of its own identification, and its length is modulo 2^32 the total announced by the fragment that completed it |
| UDPPacketMerger.UDPPacketMerger.constructor | src/data_processing/UDPPacketMerger.cpp:40-44 | a new merger is consistent with the empty history and not complete |
| UDPPacketMerger.UDPPacketMerger.AddUDPPacket | src/data_processing/UDPPacketMerger.cpp:57-73 | the fields stay those determined by the history extended by this packet, and the answer and the flag say whether this packet deployed |
| UDPPacketMerger.UDPPacketMerger.AddParsed | src/data_processing/UDPPacketMerger.cpp:63-72 | the same once the header is read: map, deployed bytes and flag are functions of the history |
| UDPPacketMerger.UDPPacketMerger.FileAndDeploy | src/data_processing/UDPPacketMerger.cpp:63-72 | clears the flag, files the fragment, and on completion deploys the sorted payloads and erases the list |
| UDPPacketMerger.UDPPacketMerger.AddToMap | src/data_processing/UDPPacketMerger.cpp:75-91 | the fragment goes to the end of its identification's list, which is created if absent; all else is unchanged |
| UDPPacketMerger.UDPPacketMerger.DeployPacketIfComplete | src/data_processing/UDPPacketMerger.cpp:93-112 | deploys the sorted and joined payloads and erases the list exactly when the length test passes, otherwise changes nothing |
| UDPPacketMerger.UDPPacketMerger.CheckIfComplete | src/data_processing/UDPPacketMerger.cpp:114-126 | compares the 32-bit payload sum of the list in arrival order, whatever the sort did, with the newest total |
| UDPPacketMerger.UDPPacketMerger.GetDeployedPacketBuffer | src/data_processing/UDPPacketMerger.cpp:51-55 | hands out the newest deployment, clears the flag and keeps everything else |
| UDPPacketMerger.CurrentLength | src/data_processing/UDPPacketMerger.cpp:128-139 | the loop computes the sum of the payload lengths modulo 2^32 |
| UDPPacketMerger.RemoveHeader | src/data_processing/UDPPacketMerger.cpp:152-168 | the loop joins the payloads in list order |
| UDPPacketMerger.PayloadLengthSubset | src/data_processing/UDPPacketMerger.cpp:128-139 | a sub-multiset of fragments carries no more bytes, and as many only if nothing non-empty is missing |
| UDPPacketMerger.PayloadLengthPermutation | src/data_processing/UDPPacketMerger.cpp:128-150 | the length of a list does not depend on its order |
| UDPPacketMerger.JoinLength | src/data_processing/UDPPacketMerger.cpp:152-168 | the joined payload is as long as the sum that the completeness test takes |
| Fragmentation.DatagramParses | src/data_processing/ParseDatagramHeader.cpp:88-105 | identification, total length, offset and payload of a datagram are read back from its bytes |
| Fragmentation.MarkerIff | src/data_processing/ParseDatagramHeader.cpp:64-86 | marker, protocol and versions are what the first eight bytes say |
| Fragmentation.CutIsInstance | src/data_processing/ParseDatagramHeader.cpp:52-62 | the parsed datagrams of any payload cut into non-empty pieces form an instance, whatever the unread bytes of each datagram, so the run theorems apply to bytes on the wire |
| Fragmentation.WaitsForLastIff | src/data_processing/UDPPacketMerger.cpp:114-126 | with one piece outstanding the merger waits for it exactly when it is not empty |
| Fragmentation.SortExists | src/data_processing/UDPPacketMerger.cpp:98-99 | insertion sort orders by offset and keeps the elements, so the assumption about the sort can be met |
| ScannerDrivers.AsyncSickSafetyScanner.ProcessUDPPacket | src/SickSafetyscanners.cpp:300-310 | the callback's arguments are always the parsed deployments of the history, and it runs once exactly when the packet deploys |
| ScannerDrivers.SyncSickSafetyScanner.Receive | src/SickSafetyscanners.cpp:330-341 | reads up to the first deploying datagram and returns the newest deployment parsed, or times out having read all |
| ScannerDrivers.ReadUntil | src/SickSafetyscanners.cpp:333-337 | the loop always consumes datagrams, ends in a deploying history or with none left |
| ScannerDrivers.ReadsPrefix | src/SickSafetyscanners.cpp:333-337 | a blocking receive consumes a prefix of the stream and files exactly its datagrams |
| ScannerDrivers.StopsAtFirst | src/SickSafetyscanners.cpp:333-337 | no earlier datagram of that prefix would have ended the loop |
| ScannerDrivers.SyncAgreesWithAsync | src/SickSafetyscanners.cpp:300-341 | on any stream from any history, receiving until the timeout yields the results the callback gets |
| ScannerDrivers.ReceiveUntilTimeout | src/SickSafetyscanners.cpp:330-341 | calling the blocking receive until it times out reads everything and collects those results |
| ScannerDrivers.HandleAll | src/SickSafetyscanners.cpp:300-319 | handling every datagram leaves the callback path with the history of all of them |
| ScannerDrivers.BothWays | src/SickSafetyscanners.cpp:300-341 | the two objects, fed the same datagrams, end with the same results: the parsed deployments |
| ScanDelivery.CompletedInstancesDelivered | src/SickSafetyscanners.cpp:300-341 | on any stream both drivers hand out the parsed payloads (none for one that is read past its end) of exactly the completed instances, each once, in completion order |
| ReadWriteHelper.Uint16BigEndianInverse | include/sick_safetyscanners_base/data_processing/ReadWriteHelper.hpp:276-279 | the reader gives v exactly where the writer's two bytes for v stand |
| ReadWriteHelper.Uint16LittleEndianInverse | include/sick_safetyscanners_base/data_processing/ReadWriteHelper.hpp:289-292 | the same, little-endian |
| ReadWriteHelper.Uint32BigEndianInverse | include/sick_safetyscanners_base/data_processing/ReadWriteHelper.hpp:328-331 | the reader gives v exactly where the writer's four bytes for v stand |
| ReadWriteHelper.Uint32LittleEndianInverse | include/sick_safetyscanners_base/data_processing/ReadWriteHelper.hpp:341-344 | the same, little-endian |
| ReadWriteHelper.Int32LittleEndianInverse | include/sick_safetyscanners_base/data_processing/ReadWriteHelper.hpp:368-371 | the same for signed values in two's complement |
| ReadWriteHelper.ByteOrder | include/sick_safetyscanners_base/data_processing/ReadWriteHelper.hpp:125-173 | big-endian is most significant byte first, little-endian least significant first |
| ReadWriteHelper.WriteUint8 | include/sick_safetyscanners_base/data_processing/ReadWriteHelper.hpp:53-56 | replaces one byte of the buffer and no other |
| ReadWriteHelper.WriteUint16BigEndian | include/sick_safetyscanners_base/data_processing/ReadWriteHelper.hpp:125-129 | replaces two bytes, most significant first, and no others |
| ReadWriteHelper.WriteUint16LittleEndian | include/sick_safetyscanners_base/data_processing/ReadWriteHelper.hpp:138-142 | replaces two bytes, least significant first, and no others |
| ReadWriteHelper.WriteUint32BigEndian | include/sick_safetyscanners_base/data_processing/ReadWriteHelper.hpp:152-158 | replaces four bytes, most significant first, and no others |
| ReadWriteHelper.WriteUint32LittleEndian | include/sick_safetyscanners_base/data_processing/ReadWriteHelper.hpp:167-173 | replaces four bytes, least significant first, and no others |
| ReadWriteHelper.WriteInt32LittleEndian | include/sick_safetyscanners_base/data_processing/ReadWriteHelper.hpp:182-188 | the same for the two's complement of a signed value |
| SettingsRoundTrip.SettingsSurviveTheWire | src/cola2/ChangeCommSettingsCommand.cpp:51-141 | any settings printed, framed, delivered in any non-empty chunks (the first reaching the end of the length field), merged and read back are the settings printed, with angles within one tick; the loop stops after the last chunk |
| Telegram.TelegramRoundTrip | src/data_processing/ParseTCPPacket.cpp:44-134 | the parser recovers the four header fields, the payload after its first two bytes, and the telegram's length exactly when that fits 32 bits |
| TelegramFormat.PrintedTelegram | src/cola2/Command.cpp:119-211 | the telegram of each command class in bytes: marker 02 02 02 02, the number of bytes behind the length field, 00 00, session id, request id, and the tail |
| TelegramFormat.TailIs | src/cola2/VariableCommand.cpp:43-56 | the tails: 52 49 and the index for a variable, 4D 49 and the index for a method, 4D 49 B0 00 and the block for settings, 4F 58 3C 00 00 00 01 for create, 43 58 for close |
| TelegramFormat.SettingsPlaces | src/cola2/ChangeCommSettingsCommand.cpp:89-141 | every setting stands at its byte of the block, the others are zero |
| TelegramFormat.ReplyIff | src/data_processing/ParseTCPPacket.cpp:61-134 | the fields read from a reply are those at bytes 10, 14, 16 and 17, and its data is what follows byte 19 |
| TelegramFormat.ExpectedLengthIff | src/data_processing/ParseTCPPacket.cpp:44-50 | the expected length is eight more than the big-endian number at byte 4 |
| TelegramFormat.ConfigIff | src/data_processing/ParseMeasurementPersistentConfigData.cpp:45-141 | the configuration read is the one whose fields stand at their places, and no other |
| Telegram.HeaderWrites | src/cola2/Command.cpp:155-211 | the eight header writes are disjoint and cover bytes 0 to 17: any 18-byte buffer becomes the header |
| Telegram.AddTelegramHeader | src/cola2/Command.cpp:130-143 | writes the header in place and puts it in front of the payload |
| Telegram.ExpandTelegram | src/cola2/Command.cpp:119-128 | a fresh copy with that many zero bytes appended |
| Telegram.AppendIndex | src/cola2/MethodCommand.cpp:49-56 | the two-byte little-endian index follows the given telegram |
| Telegram.AddTelegramData | src/cola2/ChangeCommSettingsCommand.cpp:51-64 | each command class appends its data to the given telegram; the settings block is pushed back by that telegram's length, for every telegram short enough that its writes stay inside the buffer |
| Telegram.WritesFitIff | src/cola2/ChangeCommSettingsCommand.cpp:51-77 | the settings writes stay inside the buffer exactly for initial telegrams of at most 2 bytes; for three zero bytes they do not |
| Telegram.WriteSettings | src/cola2/ChangeCommSettingsCommand.cpp:66-77 | the nine in-place writes produce the block behind what was there, wherever at least its 26 written bytes fit |
| Telegram.SettingsWrites | src/cola2/ChangeCommSettingsCommand.cpp:89-141 | the nine writes are disjoint and leave the reserved bytes zero |
| Telegram.SettingsBlockRoundTrip | src/data_processing/ParseMeasurementPersistentConfigData.cpp:45-141 | the configuration reader recovers every setting from the printed block, angles as the ticks sent |
| Telegram.AngleInRangeIff | src/cola2/ChangeCommSettingsCommand.cpp:122-134 | an angle can be sent exactly when its truncated tick count fits 32 signed bits; every angle below 512 degrees can |
| Telegram.AngleWithinOneTick | src/datastructure/ConfigData.cpp:176-194 | an angle sent and read back is off by less than a tick, always towards zero |
| TCPPacketMerger.TCPPacketMerger.AddTCPPacket | src/data_processing/TCPPacketMerger.cpp:65-101 | completes exactly when the 32-bit remainder equals the chunk's length, then deploys all chunks joined and empties the buffer; otherwise keeps the chunk |
| TCPPacketMerger.TCPPacketMerger.AddToMap | src/data_processing/TCPPacketMerger.cpp:80-91 | the chunk is kept and the flag set if the chunk is what was missing |
| TCPPacketMerger.TCPPacketMerger.GetCurrentSize | src/data_processing/TCPPacketMerger.cpp:123-133 | the loop sums to the number of bytes buffered |
| TCPPacketMerger.TCPPacketMerger.DeployPacket | src/data_processing/TCPPacketMerger.cpp:103-116 | the loop joins the chunks in order and the buffer is emptied |
| TCPPacketMerger.TCPPacketMerger.GetDeployedPacketBuffer | src/data_processing/TCPPacketMerger.cpp:59-63 | hands out the deployed bytes and clears the flag |
| TCPPacketMerger.TelegramReassembly | src/cola2/Cola2Session.cpp:115-133 | any telegram with a right length field, in any non-empty chunks whose first reaches the end of that field, comes back whole and nothing after it is consumed |
| TCPPacketMerger.StopsAfterLastIff | src/cola2/Cola2Session.cpp:121-130 | for any target and chunks, the loop returns exactly these chunks if and only if the last is the first that fits |
| TCPPacketMerger.ReceivedLength | src/data_processing/TCPPacketMerger.cpp:80-91 | whatever arrives, a packet handed out has the target length modulo 2^32 |
| TCPPacketMerger.FitsAtEndOnly | src/data_processing/TCPPacketMerger.cpp:80-91 | against the true length, a non-empty chunk fits only if it is the last |
| Cola2Session.RunSafe | include/sick_safetyscanners_base/SickSafetyscanners.h:277-284 | any number of requests against arbitrary replies and timeouts leave a safe log and a closed connection: each connection sends a prefix of create, request, close, every telegram carries the session id of the latest create reply and the next request id |
| Cola2Session.ExecuteSafe | include/sick_safetyscanners_base/SickSafetyscanners.h:277-284 | one request keeps the log safe and always ends disconnected |
| SessionProgress.ExecuteProgress | include/sick_safetyscanners_base/SickSafetyscanners.h:277-284 | a request from a closed session adds exactly Connected, create, reply, request, reply, close, reply, Disconnected to the log, in bytes, or the part up to the first missing response and a timeout; status, ids and what is left to receive accordingly |
| SessionProgress.RunProgress | include/sick_safetyscanners_base/SickSafetyscanners.h:277-284 | any number of requests puts exactly these segments on the wire, one for each, in order |
| SessionProgress.AnsweredRequest | include/sick_safetyscanners_base/SickSafetyscanners.h:277-284 | three responses delivered in any chunks: the request succeeds with these eight events and takes nothing beyond the third response |
| SessionProgress.OpenProgress | src/cola2/Cola2Session.cpp:71-83 | opening a closed session connects, sends the create telegram and takes over the id of the reply, or times out |
| SessionProgress.CloseProgress | src/cola2/Cola2Session.cpp:90-101 | closing an open session sends the close telegram, waits for the reply and disconnects, or times out; a closed one stays as it is |
| SessionProgress.ReopenProgress | src/cola2/Cola2Session.cpp:71-77 | opening an open session closes it first |
| SessionProgress.SendProgress | src/cola2/Cola2Session.cpp:103-140 | one command: its telegram under the session's id and the next request id, then the reply or a timeout |
| SessionProgress.NewCommandTelegram | src/cola2/Command.cpp:41-60 | the telegram of a newly built command, in bytes |
| SessionProgress.VerdictIff | src/cola2/VariableCommand.cpp:63-78 | a reply is accepted if and only if its bytes 16 and 17 are 4F 41 (create), 43 41 (close), 52 41 (variable), 41 49 (method), anything but 41 49 (settings); its fields and data go to the command, and the session id changes exactly on an accepted create reply |
| Cola2Session.OpenSafe | src/cola2/Cola2Session.cpp:71-83 | opening sends exactly a create telegram and stays connected exactly if it is answered |
| Cola2Session.CloseSafe | src/cola2/Cola2Session.cpp:90-101 | closing sends a close telegram and ends disconnected, answered or not |
| Cola2Session.SendStep | src/cola2/Cola2Session.cpp:103-140 | the next command of a connection keeps the session's invariant, and the connection survives exactly if it is answered |
| Cola2Session.NextIsSafeToSend | src/cola2/Command.cpp:41-49 | a command built in a safe state has the right ids and the right place in its connection |
| Cola2Session.WireFields | src/cola2/Command.cpp:56-60 | the four fields of a command stand on the wire as they are in the command |
| Cola2Session.SafeAt | src/cola2/Cola2Session.cpp:103-113 | each telegram on a safe log was safe to send after everything before it |
| Cola2Session.RequestIdAt | src/cola2/Cola2Session.cpp:54-57 | the k-th telegram sent carries request id k modulo 65536 |
| Cola2Session.RequestIdsDistinct | src/cola2/Cola2Session.cpp:54-57 | among any 65536 consecutive telegrams no two share a request id |
| Cola2Session.SendCommandSpec | src/cola2/Cola2Session.cpp:135-140 | a command succeeds exactly if the session was open and still is; it takes no request id, only adds to the log, leaves command verdict and session id alone unless answered, and only a create command changes the session id |
| Cola2Session.Cola2Session.ReceiveAndProcessResponse | src/cola2/Cola2Session.cpp:115-133 | the loop over one merger returns what the chunks to come determine, and consumes no more |
| Cola2Session.Cola2Session.SendCommand | src/cola2/Cola2Session.cpp:103-140 | session, command and socket move as the state machine says: no send when closed, the session's id on the wire, the reply processed, or a timeout that closes |
| Cola2Session.Cola2Session.Open | src/cola2/Cola2Session.cpp:71-83 | closes an open session first, connects, creates, and takes over the replied session id |
| Cola2Session.Cola2Session.Close | src/cola2/Cola2Session.cpp:90-101 | does nothing when closed, otherwise sends a close command and disconnects |
| Cola2Session.Cola2Session.CreateAndExecuteCommand | include/sick_safetyscanners_base/SickSafetyscanners.h:277-284 | open, one command, close, ended by the first failure |
| Cola2Session.Cola2Session.GetNextRequestID | src/cola2/Cola2Session.cpp:54-57 | advances the 16-bit counter and returns its new value |
| Cola2Session.Command.constructor | src/cola2/Command.cpp:41-49 | takes the session's id, 0 if there is none, and the next request id |
| Cola2Session.Command.ConstructTelegram | src/cola2/Command.cpp:56-60 | the telegram is the header of the command's current state in front of its data, behind any given telegram |
| Cola2Session.Command.ParseTCPSequence | src/data_processing/ParseTCPPacket.cpp:61-82 | the reply's fields and data replace the command's |
| Cola2Session.Command.ProcessReplyBase | src/cola2/CreateSession.cpp:63-77 | the verdict on the reply, and the session id set exactly by an accepted create reply |
| Cola2Session.TCPClient.Receive | src/communication/TCPClient.cpp:148-170 | the next chunk, or a timeout that closes the socket |
| BitFlags.FlagAt | src/data_processing/ParseIntrusionData.cpp:141-161 | flag k is bit k mod 8 of byte k div 8 |
| BitFlags.WordFlagsAreFlags | src/data_processing/ParseApplicationData.cpp:244-255 | shifting through a little-endian word visits the bits of its bytes in order |
| BitFlags.UnpackWord | src/data_processing/ParseApplicationData.cpp:244-255 | the word-shift loop returns the first flags of the four bytes |
| BitFlags.UnpackCutOffPath | src/data_processing/ParseGeneralSystemState.cpp:116-137 | the three-byte loop with its early break returns the first 20 flags |
| BitFlags.SameFlags | src/data_processing/ParseIntrusionData.cpp:141-161 | flags depend on nothing but the bytes they are read from |
| BitFlags.BitOfParts | src/data_processing/ParseApplicationData.cpp:250-253 | below bit m a number shows its lower part, above it the upper |
| BitFlags.PackedFlags | src/data_processing/ParseIntrusionData.cpp:141-161 | unpacking gives back any flags packed eight to a byte |
| IntrusionBlocks.RecoverableIff | src/data_processing/ParseIntrusionData.cpp:113-161 | for any record sizes and beam count, and whatever follows the block: every block of these sizes is decoded to its records if and only if each record and its flags start below 65536, or has no flags and its size is shown, by size bytes alone, where the wrapped offset points |
| IntrusionBlocks.InReachExact | src/data_processing/ParseIntrusionData.cpp:113-161 | for non-empty records and at least one beam the condition is just that all flags start below 65536 |
| IntrusionBlocks.InReachIff | src/data_processing/ParseIntrusionData.cpp:113-130 | records in reach of the 16-bit offset are recoverable, and where all have flags no others are |
| IntrusionBlocks.IntrusionRoundTrip | src/data_processing/ParseIntrusionData.cpp:113-161 | any 24 recoverable records come back in order, each with its size and min(8 size, beams) flags, and flag k equal to bit k mod 8 of byte k div 8; empty records and a beam count of 0 included |
| IntrusionBlocks.RecoverableRoundTrips | src/data_processing/ParseIntrusionData.cpp:113-130 | recoverable records, any number of them, are what their block is decoded to |
| IntrusionBlocks.RoundTripsIff | src/data_processing/ParseIntrusionData.cpp:113-130 | a block is decoded to its records if and only if each size and each record's flags are found where the records start modulo 65536 |
| IntrusionBlocks.FlagsNeeded | src/data_processing/ParseIntrusionData.cpp:141-161 | if the flags of a non-empty record start at 65536 or later, some records of the same sizes do not have the flag shown where the offset points |
| IntrusionBlocks.ShortBlockInReach | src/data_processing/ParseIntrusionData.cpp:113-130 | in a block below 65536 bytes every record is in reach |
| IntrusionBlocks.WrappedBlockFails | src/data_processing/ParseIntrusionData.cpp:113-130 | a block that starts with a record of 65532 bytes and one of another size is decoded wrongly whatever its contents |
| IntrusionBlocks.SecondRecordRepeatsFirst | src/data_processing/ParseIntrusionData.cpp:113-130 | after a first record of 65532 bytes the second is read at offset 0 again and repeats it |
| IntrusionBlocks.FlagVectorsRoundTrip | src/data_processing/ParseIntrusionData.cpp:113-161 | 24 vectors of one flag a beam, packed into records, come back as the decoded flags whenever the packed block ends below 65536 |
| IntrusionData.ByteRead | src/data_processing/ParseIntrusionData.cpp:146-158 | the flag count follows the byte counter, which stays at or below 8192 and never wraps |
| IntrusionData.ParseIntrusionData.SetDataInIntrusionDatums | src/data_processing/ParseIntrusionData.cpp:113-130 | the loop with its wrapping offset decodes 24 records |
| IntrusionData.ParseIntrusionData.SetFlagsInIntrusionDatum | src/data_processing/ParseIntrusionData.cpp:141-161 | the nested loops return the first min(8 size, beams) flags for every signed 32-bit size, none if it is negative |
| IntrusionData.UnpackersAgree | src/data_processing/ParseIntrusionData.cpp:141-161 | with 20 beams the record decoder, the three-byte loop and the word loop return the same flags on the same bytes |
| MeasurementData.MeasurementRoundTrip | src/data_processing/ParseMeasurementData.cpp:96-163 | up to 2751 beams come back one for one, with distance, reflectivity and each of the six flags as they were encoded, at start + i * resolution; with any larger count there are none and the block is marked empty with count 0 |
| MeasurementData.PointInPlace | src/data_processing/ParseMeasurementData.cpp:140-163 | a beam's four bytes give back every field: valid is the lowest bit of the status byte, then infinite, glare, reflector, contamination, contamination warning |
| MeasurementData.PointsAt | src/data_processing/ParseMeasurementData.cpp:116-163 | point i is read from bytes 4+4i to 7+4i, at the start angle plus i resolutions |
| MeasurementData.AccumulatedAngle | src/data_processing/ParseMeasurementData.cpp:129-137 | adding the resolution n times gives the start angle plus n resolutions |
| MeasurementData.ParseMeasurementData.SetDataInMeasurementData | src/data_processing/ParseMeasurementData.cpp:96-138 | the loop with its accumulated angle and 16-bit index yields that decoding |
| MeasurementData.ParseMeasurementData.AddScanPoint | src/data_processing/ParseMeasurementData.cpp:140-163 | one point is added at the current angle |
| MeasurementData.ParseMeasurementData.SetStartAngleAndDelta | src/data_processing/ParseMeasurementData.cpp:110-114 | both accumulator fields are reset |
| ScanData.ScanOf | src/data_processing/ParseData.cpp:66-104 | without derived values there is neither measurement nor intrusion data, and never more than 2751 points |
| ScanData.ParseData.ParseUDPSequence | src/data_processing/ParseData.cpp:51-57 | the result depends on the packet only, whatever this parser object parsed before |
| ScanData.ParseData.ParseTCPSequence | src/data_processing/ParseData.cpp:59-64 | the same into an object with any earlier contents: all six parts are overwritten |
| ScanData.ParseData.SetDataBlocksInData | src/data_processing/ParseData.cpp:66-104 | header, gating and the five blocks in order, from any state of parsers and output |
| ScanData.ParseData.ParseMeasurement | src/data_processing/ParseMeasurementData.cpp:42-93 | gated by the block's fields and the derived values, with the accumulator reset first |
| ScanData.ParseData.ParseIntrusion | src/data_processing/ParseIntrusionData.cpp:42-93 | gated likewise, with the beam count reset first |
| ScanData.ParseData.ParseGeneralSystemState | src/data_processing/ParseGeneralSystemState.cpp:42-205 | status bits, three cut-off paths, monitoring cases and errors |
| ScanData.ParseData.ParseApplicationData | src/data_processing/ParseApplicationData.cpp:42-111 | all inputs and outputs, gated by the block's fields |
| ScanData.ParseApplicationInputs | src/data_processing/ParseApplicationData.cpp:113-233 | word loops and reads give every input field from its place in the block |
| ScanData.ParseApplicationOutputs | src/data_processing/ParseApplicationData.cpp:121-411 | likewise every output field |
| ScanData.TooShortIsEmpty | src/data_processing/ParseData.cpp:66-97 | a packet shorter than its declared blocks gives five empty blocks and needs no more than its header to be parsed safely |
| ScanData.SizeCheckNotEnough | src/data_processing/ParseData.cpp:71-96 | a packet of 52 bytes passes the size check although its derived values would be read from offset 65535 |
| CheckedParsing.CheckedScanIff | src/data_processing/ParseData.cpp:66-104 | a parser that checks every read and gives up at the first one past the end yields the plain parser's result exactly where the model's condition holds, and gives up everywhere else |
| CheckedParsing.RecordsChecked | src/data_processing/ParseIntrusionData.cpp:113-161 | the same for the intrusion records: checking record by record and flag by flag succeeds exactly where the decoder stays inside |
| CheckedParsing.PointsChecked | src/data_processing/ParseMeasurementData.cpp:116-163 | the same for the scan points |
| ScanData.PointsFollowDerivedValues | src/data_processing/ParseMeasurementData.cpp:110-138 | the points of any packet carry the angles of the derived values of the same packet |
| PacketFormat.HeaderIff | src/data_processing/ParseDataHeader.cpp:99-228 | the header read from a packet is the one whose fields stand at their places (general state block at 32, derived values at 36, measurement at 40, intrusion at 44, application at 48), and no other |
| PacketFormat.HeaderRoundTrip | src/data_processing/ParseDataHeader.cpp:54-97 | any header printed in front of any rest is read back |
| PacketFormat.GateIff | src/data_processing/ParseData.cpp:71-97 | the blocks of a header are kept if and only if the packet is at least as long as the five declared sizes together, otherwise all five places are zeroed |
| PacketFormat.ShortPacketIsEmpty | src/data_processing/ParseData.cpp:66-104 | a shorter packet is parsed safely into its header without blocks and five empty blocks |
| PacketFormat.DerivedIff | src/data_processing/ParseDerivedValues.cpp:88-132 | the derived values are those standing at bytes 0, 2, 4, 8, 12 and 16, angles signed |
| PacketFormat.GeneralIff | src/data_processing/ParseGeneralSystemState.cpp:89-205 | each status and error bit, the three paths of 20 flags and the four case numbers are those at their places |
| PacketFormat.VelocitiesIff | src/data_processing/ParseApplicationData.cpp:205-227 | two signed velocities, and their flags at bits 0, 1, 4 and 5 of the fifth byte |
| PacketFormat.InputsIff | src/data_processing/ParseApplicationData.cpp:113-233 | every input field is what stands at its place |
| PacketFormat.OutputsIff | src/data_processing/ParseApplicationData.cpp:121-411 | every output field is what stands at its place |
| PacketFormat.DerivedFromBytes | src/data_processing/ParseData.cpp:66-120 | a parsed packet has the header at its start, and derived values if and only if bytes 36 to 39 are not zero: those at that place |
| PacketFormat.GeneralFromBytes | src/data_processing/ParseData.cpp:131-138 | likewise the system state by bytes 32 to 35 |
| PacketFormat.ApplicationFromBytes | src/data_processing/ParseData.cpp:148-155 | likewise the application data by bytes 48 to 51 |
| PacketFormat.DependentBlocksFromBytes | src/data_processing/ParseMeasurementData.cpp:62-93 | measurement and intrusion data are there if and only if their own place and that of the derived values are not zero |
| PacketFormat.PacketParseable | src/data_processing/ParseData.cpp:66-104 | a packet that holds encoded beams and recoverable records where bytes 40 to 47 put them is parsed without reading past its end; any block may be missing |
| PacketFormat.BeamsRoundTrip | src/data_processing/ParseData.cpp:66-104 | the beams encoded where bytes 40 to 43 put them are the parsed points, every field and flag of each, at the angles that the bytes of the derived values give; more than 2751 are none |
| PacketFormat.RecordsInPacketRoundTrip | src/data_processing/ParseData.cpp:66-104 | the 24 recoverable records where bytes 44 to 47 put them are the parsed datums, cut off at the beam count that the bytes of the derived values give |
| PacketFormat.RecordStep | src/data_processing/ParseIntrusionData.cpp:113-161 | one record of any signed size: no flags if it is negative, and the next record is read that many bytes on or back, modulo 65536 |

## Left out

- Sockets, asio, deadlines, threads, mutexes and logging: receiving is a given sequence of chunks or datagrams, and a timeout is one of its elements.
- Cola2Session.TCPClient.Receive: does not yield socket errors other than the timeout, because they leave the socket as it is and so the shape of a connection open.
- Failures of connect and send, and a disconnect by the sensor: of the network errors only the receive timeout is modelled.
- Floating-point rounding: printed angles are exact reals, decoded angles exact ticks, so nothing is said about the last bits of a float.
- Datagrams shorter than 24 bytes, first chunks shorter than 8 and responses shorter than 18 bytes: the code reads beyond their end, so preconditions exclude them.
- Empty pieces, duplicates, and instances of one identification that overlap in time: excluded by `IsStream` in the whole-run theorem; conservation, per-identification refinement and the reachable-state invariant do hold for them.
- Telegram.AddTelegramData: for `ChangeCommSettingsCommand` it demands an initial telegram of at most 2 bytes, because the write position counts that telegram twice and a longer one makes the code write past its buffer (`Telegram.WritesFitIff`); the session always passes an empty one.
- Telegram.AngleWithinOneTick: the angle is an exact real, where the code multiplies and divides floats.
- ScanData.ParseData.ParseUDPSequence: demands that no read goes past the packet's end, where the code's behaviour is undefined; `CheckedParsing.CheckedScanIff` shows that this demand excludes nothing else.
- ScanData.ParseData.ParseTCPSequence: demands the same.
- ScanData.ParseData.SetDataBlocksInData: demands the same.
- Cola2Session.RunSafe: speaks of requests made by open, command, close; a caller that keeps a session open for several commands is not covered.
- The other parsers and commands (names, types, status, field data, FindMe): strings and fixed-offset reads, or variants of commands that are modelled.
- `size_t` sums are unbounded; the narrower counters wrap as in the code.
- `include/sick_safetyscanners_base/experimental`, which the library does not use.
