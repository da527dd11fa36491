# VCMux, verified

This project models VCMux, the virtual console multiplexing protocol of the repository, from its encoders
to its decoders, and proves that every pipeline built from them delivers exactly the right bytes to the
right stream.

The same escape scheme is written several times in the repository: by two Rust encoders, by a C encoder that
streams through a fixed array, by a host writer that nests it inside the NVIDIA combined-UART escapes, by a
byte-at-a-time host demultiplexer and by a byte-at-a-time target decoder. Here a small token language is the
meaning of the uplink format; each uplink encoder is proved to print tokens, and the host demultiplexer to
interpret them on every byte sequence. The target's downlink decoder and the legacy decoder get a meaning of
their own on every byte sequence, and so does the NVIDIA outer layer, resets included. The pipelines built from
them are proved whatever the chunking, the interleaving or the line-ending patch, and the uplink ones through
the outer layer, for any wire that brings the bytes to the host, with an exact account of the outer resets on it
that cannot be seen and of what the others do.

| file | content |
|---|---|
| `Bytes.dfy` | protocol constants, C strings, sequence helpers |
| `LineEnding.dfy` | a PTY as an append-only log, and the line-ending patch in front of it |
| `JsonScan.dfy`, `TagTable.dfy` | the host's JSON scanners and its stream table |
| `Demux.dfy`, `Tokens.dfy`, `HostMachine.dfy` | the host demultiplexer as a transition function, its token meaning, and the imperative machine |
| `PatchedHost.dfy` | patching in the host against patching its logs afterwards |
| `Proto.dfy`, `IdPool.dfy`, `Muxd.dfy`, `MuxdRuns.dfy`, `MuxdUplink.dfy` | the Rust encoders, the id pool, the daemon with any number of clients, its runs told from their events alone, and what its frames become at the host |
| `ConsoleMux.dfy`, `GuestSink.dfy`, `Downlink.dfy` | the target: streaming encoder, guest batches, downlink decoder and rings |
| `Target.dfy` | the whole target: guests and downlink in any interleaving on one UART |
| `Outer.dfy`, `Resets.dfy`, `Legacy.dfy` | the nested NVIDIA layer with the host's VCMux writer, outer resets position by position, and the legacy writer and decoder |
| `Imports.dfy`, `Generator.dfy` | the registry generator: import closure and id assignment |
| `Json.dfy`, `JsonEscape.dfy`, `KeySearch.dfy`, `Registry.dfy` | printed JSON and its string escapes under the host's scanners, and the registry print/parse round trip |
| `EndToEnd.dfy` | from the generator through the mux to the PTYs |

Code that changes state is imperative here (classes and methods with loops), each method proved against a
specification function; the theorems are about those functions. A PTY is an append-only log and a byte is an
`int` from 0 to 255. All results hold with the line-ending patch on and off unless a statement says otherwise.

Where the code and its documentation disagree the model follows the code:

- The wire protocol document limits stream ids to 0x01–0xfc. The pool reserves only 0, 0xfd and 0xfe, the target
  accepts 0xff, and the host registers 0xff; valid ids here are 1..0xfc and 0xff, 253 of them.
- The document gives DISCONNECTED the stream id alone. The daemon sends the name with it.
- An exhausted pool hands out id 0 and the daemon goes on with it. The host ignores CONNECTED 0 because the
  built-in entries have value 0, and payload of id 0 lands in the unframed log, without its 0xfe bytes.
- CONNECTED for a known id is ignored, so a reused id keeps its first name and its log, and CONNECTED does not
  check that the id is valid.
- A registry longer than 4083 bytes does not fit the target's frame array and is silently never sent.
- An outer reset clears the cursor and a pending escape but not the control parser. So while no stream
  is selected a reset inside a registry, CONNECTED or DISCONNECTED record loses nothing unless it stands behind
  the record's first byte, and a reset between two payload bytes of a data frame sends the rest of the payload
  to the unframed log.
- A string value that prints like one of the quoted keys the host looks for hides that key: a component or
  console interface named `stream_id` makes the host reject the whole registry, so does a registry name or
  source that is `streams` or ends in `"streams`, and a component named `direction` loses its input flag.
- Every byte that reaches the inner decoder is also copied to raw_ccplex, in nvidia-tcu mode all but 0xff.

## Model

| member | source | states |
|---|---|---|
| LineEnding.Patch2Flush | host/tcu_com.c:864-901 | the flag juggling of the C function writes exactly what the pure patch step writes and never leaves both flags set |
| LineEnding.PatchFromFresh | host/tcu_com.c:864-901 | for every input: the input survives as a subsequence, every line-ending run ended by an ordinary byte has both CR and LF, and patching a patched log changes nothing |
| LineEnding.PatchExact | host/tcu_com.c:877-892 | exactly what is added, on the input bytes: one byte in front of each ordinary byte that an unpaired line ending precedes, CR for an LF and LF for a CR, and nothing else |
| LineEnding.UnchangedIffPaired | host/tcu_com.c:877-892 | the patch changes nothing if and only if every line ending in front of an ordinary byte is made of pairs |
| PatchedHost.DemuxThenPatch | host/tcu_com.c:1030-1183 | over every wire in either mode a patching host parses like a non-patching one, and each of its logs, raw_ccplex included, is the patched log of the other |
| JsonScan.FindMatching | host/tcu_com.c:313-345 | returns the first closing bracket at which the depth counted outside strings (section 7 of RFC 8259) reaches zero, and None exactly when there is none |
| JsonScan.StringValueAfter | host/tcu_com.c:250-285 | computes the first string value without escapes behind the key and colon |
| JsonScan.IntValueAfter | host/tcu_com.c:287-311 | computes the strtol value behind the key and accepts only -1 to 255 |
| JsonScan.FindArrayAfter | host/tcu_com.c:347-373 | computes the bounds of the array behind the key and colon |
| JsonScan.StringIff | host/tcu_com.c:250-285 | a string is read if and only if it is the plain quoted value behind the first occurrence of the key, blanks, a colon and blanks |
| JsonScan.IntIff | host/tcu_com.c:287-311 | the same for a number with an optional sign, from -1 to 255 |
| JsonScan.ArrayIff | host/tcu_com.c:347-373 | the same for an array up to its matching bracket |
| TagTable.AppendStream | host/tcu_com.c:388-436 | skips negative ids; rejects reserved ids, used ids, used names and a full table; else appends |
| TagTable.ReadItem | host/tcu_com.c:484-544 | reads the next stream object of the array: its id, name and input flag, or that it is malformed |
| TagTable.NoMoreIff | host/tcu_com.c:484-493 | the loop ends exactly when no opening brace is left |
| TagTable.ItemIff | host/tcu_com.c:494-544 | the next object gives an entry exactly when it is closed and its keys start in it and have the values of the entry; an object that is not closed is an error |
| TagTable.LookupUnique | host/tcu_com.c:589-600 | in a valid table a nonzero id has at most one entry, which is not a built-in one |
| TagTable.UpdatesKeepTable | host/tcu_com.c:463-648 | a registry and a CONNECTED record both keep the ids distinct and nonzero and never touch an existing entry; a registry never uses a name that the table or the registry has already |
| TagTable.ValidIdsLeaveRoom | host/tcu_com.c:388-436 | pigeonhole: a table of valid ids holds at most 256 entries |
| HostMachine.Demuxer.Feed | host/tcu_com.c:903-1077 | one byte takes the imperative machine (flags, length and position counters, buffer, tables) exactly where the transition function goes, and keeps its invariant |
| HostMachine.Demuxer.ApplyJson | host/tcu_com.c:463-568 | applies a registry completely or, when it is rejected or a PTY cannot be created, leaves table, flags and PTYs as they were |
| HostMachine.Demuxer.ApplyConnected | host/tcu_com.c:612-648 | registers an unknown id, with input off, under the longest part in front of the name that has at most 255 bytes and no NUL; takes the entry back when no PTY can be created |
| Demux.RunOk | host/tcu_com.c:903-1077 | over every byte sequence: distinct nonzero ids, one PTY per entry, a cursor that is -1 or a stream entry, entries never removed or renamed, the two reserved PTYs never written |
| Tokens.TokensRefined | host/tcu_com.c:903-1077 | on the bytes of any token list from a boundary the byte machine and the token interpreter agree completely, whatever bytes control payloads hold |
| Tokens.LexOfPrinted | host/tcu_com.c:917-1048 | printed token lists are uniquely decodable |
| Tokens.EveryByteSequence | host/tcu_com.c:903-1077 | after any bytes at all, table, logs, cursor and acknowledgement count are those of the complete tokens among them |
| Tokens.TableNeverFull | host/tcu_com.c:612-648 | as long as CONNECTED records carry valid ids no byte sequence fills the table: at most 256 entries, so every index fits one byte |
| Tokens.AckBytesTransparent | host/tcu_com.c:917-926 | acknowledgement records at token boundaries change nothing but the count, which grows by exactly their number |
| Tokens.AckAbsorbedIffAtBoundary | host/tcu_com.c:917-926 | an inserted acknowledgement record is absorbed if and only if the machine stands at a token boundary |
| Tokens.AckInsideEscapeBreaks | host/tcu_com.c:1022-1054 | the byte sequence that shows it: inside an escape pair the record puts three stray bytes into the unframed log |
| Tokens.IgnoredRecords | host/tcu_com.c:917-1020 | unknown commands, records without a body and every registry behind the first change nothing |
| Proto.EncodeDataFrame | linux/virtioso-mux-proto/src/lib.rs:33-46 | appends exactly the stuffed data frame to the caller's vector |
| Proto.EncodeControlFrame | linux/virtioso-mux-proto/src/lib.rs:50-64 | appends exactly the control record: the 16-bit length and the name as it is if it fits, else its first 65534 bytes |
| Proto.DataFrameEffect | linux/virtioso-mux-proto/src/lib.rs:33-46 | a data frame of any length delivers exactly its payload to the stream's PTY and leaves the cursor unframed; for unknown streams and id 0 it goes to the unframed log |
| Proto.DataRoundTrip | host/tcu_com.c:1022-1076 | with the patch off the stream's log grows by the payload and no other PTY changes |
| Proto.ControlFrameEffect | host/tcu_com.c:612-648 | a CONNECTED frame registers its id unless the id is known or the table full, under the name itself if it has at most 255 bytes and no NUL, else the longest such part in front; DISCONNECTED changes nothing |
| IdPool.AllocExact | linux/virtioso-muxd/src/main.rs:172-189 | 0 exactly when all 253 allocatable ids are live; else a valid id that is not live, the nearest one from `next` on, and `next` moves behind it |
| IdPool.Allocator.Allocate | linux/virtioso-muxd/src/main.rs:172-189 | the wrapping search loop terminates and computes that allocation |
| IdPool.Allocator.Release | linux/virtioso-muxd/src/main.rs:191-195 | a usable id is free afterwards; reserved ids, all other slots and the search position stay as they are |
| Muxd.StepKeepsDiscipline | linux/virtioso-muxd/src/main.rs:69-117 | every step of every client keeps the discipline of the channel and that two clients never hold the same nonzero id |
| Muxd.EveryRunDisciplined | linux/virtioso-muxd/src/main.rs:69-130 | in every run the frames of each nonzero id are a prefix of (CONNECTED DATA* DISCONNECTED)*, and live sessions never share an id |
| MuxdRuns.RunIffLegal | linux/virtioso-muxd/src/main.rs:69-130 | exactly which event sequences are runs: every client goes through its steps in order, sends wait for room in the channel of 256 frames, the sink takes what is there until it stops |
| MuxdRuns.RunTold | linux/virtioso-muxd/src/main.rs:69-196 | told from the events alone: every client gets 0 exactly while clients hold all 253 usable ids, else the nearest usable id that no client holds behind the last one given out; a usable id is marked used if and only if a client holds it; and the frames sent are exactly one per send, with these ids, the enrolled names and the bytes written |
| MuxdUplink.UplinkDemux | linux/virtioso-muxd/src/main.rs:69-130 | any run, any number of clients, any frame boundary, any wire to the host in either mode: there is a PTY for exactly the announced ids, under their first names; each holds exactly the payload of its id, which over the run is what the clients with that id wrote, session after session; id 0 payload alone reaches the unframed log, raw_ccplex gets the copy of the frames, autopilot_control nothing |
| MuxdUplink.UplinkLogs | host/tcu_com.c:1079-1183 | with the patch off each log is exactly what the clients with its id wrote, session after session, whatever wire brings it |
| Outer.Input.Feed | host/tcu_com.c:1079-1183 | one byte through the nested decoder, raw or nvidia-tcu mode, takes it where the link transition function goes |
| Outer.Input.Decode | host/tcu_com.c:1490-1516 | the loop feeds bytes until one is fatal |
| Outer.OuterPair | host/tcu_com.c:1120-1154 | an escape pair is a literal 0xff under the carrier's tag, a reset, the selection of a chip tag, or nothing |
| Outer.Writer.Write | host/tcu_com.c:1566-1666 | the fragment loops over the 512-byte inner and outer arrays stay in bounds and send the framed, wrapped data; a bad index is -22; the two physical PTYs send their bytes unframed with `-w` and nothing without |
| Outer.LinkCarries | host/tcu_com.c:1079-1183 | over every wire, in either mode, resets and other tags' traffic included: the inner machine takes exactly the bytes and resets passed on, raw_ccplex gets the copy of the bytes (without 0xff in nvidia-tcu mode) up to the one that stops the machine, nothing else changes but the outer state |
| Outer.ResetsUnseenIff | host/tcu_com.c:1138-1142 | the resets on a wire make no difference at any moment if and only if each comes while no stream is selected and no escape is pending |
| Resets.BringsIff | host/tcu_com.c:1138-1142 | a wire with resets brings the daemon's frames to the host if and only if every reset stands at a safe position, which the frames alone decide |
| Resets.ResetInRecord | host/tcu_com.c:917-1020 | in a registry, CONNECTED or DISCONNECTED record, while no stream is selected, only a reset behind its first byte shows |
| Resets.ResetInFrame | host/tcu_com.c:1022-1076 | in a data frame of a registered stream every reset but one in front of it or behind it shows; without a stream only those inside escape pairs |
| Resets.ResetSplitsFrame | host/tcu_com.c:1138-1142 | a frame split by a reset between two payload bytes: the stream keeps what came before, the rest goes to the unframed log without 0xfe |
| Outer.NestedRoundTrip | host/tcu_com.c:1611-1665 | in either mode, whatever is written, of any length and to any registered stream, arrives as exactly that data; raw_ccplex gets the copy of the inner bytes; nothing else changes but the cursors |
| Outer.InnerRoundTrip | host/tcu_com.c:1022-1076 | the same for the inner decoder alone, on the frames of a write |
| ConsoleMux.Uplink.EmitFramed | sel4/Mux/src/console_mux.c:156-189 | the registry only if it was not emitted before, then the payload through the 4088-byte array: every write in bounds, every call made of whole tokens |
| ConsoleMux.Uplink.Finish | sel4/Mux/src/console_mux.c:180-188 | there is always room for the closing pair, so the last flush of the C code is never taken |
| ConsoleMux.Uplink.EmitRegistry | sel4/Mux/src/console_mux.c:112-131 | sends one registry record, or nothing when it does not fit the array |
| ConsoleMux.CallsFull | sel4/Mux/src/console_mux.c:168-180 | every call of a payload is shorter than the array, and every call but the last fills it up to its last four bytes |
| ConsoleMux.Uplink.BatchBatch | sel4/Mux/src/console_mux.c:396-432 | sends the bytes between head and tail as one payload and advances head; nothing for an invalid id or an empty batch |
| ConsoleMux.StreamedAsOneFrame | sel4/Mux/src/console_mux.c:156-189 | for every payload length and host state the streamed calls decode exactly as one data frame of the payload |
| ConsoleMux.AcksBetweenCalls | sel4/Mux/src/console_mux.c:142-154 | any number of acknowledgements between the uplink calls of a payload changes only the count |
| GuestSink.Sink.PutChar | sel4/GuestSink/src/guest_console_sink.c:155-177 | batches the byte or sends the batch; head stays 0, fewer than 1024 bytes and no newline, CR or colon stay pending, and the overflow branch is unreachable |
| GuestSink.Sink.Flush | sel4/GuestSink/src/guest_console_sink.c:126-153 | on any batch: nothing when it is empty, a reset when it is out of bounds, else the bytes between head and tail are handed to the mux and the batch starts over |
| GuestSink.NothingLostInBatches | sel4/GuestSink/src/guest_console_sink.c:56-84 | for any interleaving of guests, bytes flushed followed by bytes pending are all bytes put |
| GuestSink.BatchesDue | sel4/GuestSink/src/guest_console_sink.c:155-177 | a batch is handed over exactly when it is due: what a sink has put is its batches, each of which ends with a newline, CR or colon or reaches 1024 bytes for the first time at its end, and a rest that has not come to that |
| GuestSink.RegistryOnce | sel4/Mux/src/console_mux.c:133-140 | over every run the registry is the first call and no later call is a registry if it fits, and it is never sent if not |
| GuestSink.GuestUplink | sel4/GuestSink/src/guest_console_sink.c:126-177 | for any interleaving of guests, any acknowledgements among the mux's calls and any wire to the host: each guest's PTY holds what its sink flushed, raw_ccplex the copy of everything sent, no other PTY changes, the acknowledgements are counted, and flushed plus pending is everything put |
| Target.EveryRunSplits | sel4/Mux/src/console_mux.c:142-313 | in every interleaving of guests' bytes, uplink calls and downlink events on one UART both halves run as if alone, and the calls made are the guests' calls so far with one acknowledgement call per acknowledgement among them |
| Target.RegistryOnce | sel4/Mux/src/console_mux.c:133-140 | the same among acknowledgements on the UART |
| Target.HostSoFar | sel4/Mux/src/console_mux.c:142-313 | at every moment of such a run the host is where the guests' calls made so far take it, but for one counted acknowledgement per frame the downlink bytes close and the copy in raw_ccplex |
| Target.TargetUplink | sel4/Mux/src/console_mux.c:142-313 | when all calls are made the guests' PTYs are as without a downlink, and the host has counted exactly the acknowledgements owed |
| Downlink.Ring.Enqueue | sel4/Mux/src/console_mux.c:211-255 | the modulo ring is a queue of at most 4087 bytes: full is reported exactly then, else the byte is appended |
| Downlink.Ring.Dequeue | sel4/Mux/src/console_mux.c:211-255 | a consumer that advances head takes the oldest byte |
| Downlink.Decoder.Feed | sel4/Mux/src/console_mux.c:269-313 | one downlink byte changes rings, counters, cursor and acknowledgements exactly as the transition function says |
| Downlink.Decoder.Consume | sel4/Mux/src/console_mux.c:211-255 | a consumer gets the oldest byte of its ring or -1, and the decoder goes on from there as the transition function says |
| Downlink.EveryDownlinkByte | sel4/Mux/src/console_mux.c:269-313 | the meaning of the target decoder on every byte sequence: what it offers, counts as delivered and acknowledges are the payload, the ends and the closes of the escape pairs and single bytes in it |
| Downlink.PairEffect | sel4/Mux/src/console_mux.c:271-303 | what an escape pair does to the selected stream and the counters, in terms of the sink table |
| Downlink.EveryRunConserves | sel4/Mux/src/console_mux.c:211-313 | over every interleaving with consumers and every input: taken plus queued is accepted per ring, at most 4087 queued, and the three counters together grow by the payload bytes that the input carries while a stream is selected, the missing one by those without a usable sink |
| Downlink.NoLoss | sel4/Mux/src/console_mux.c:211-255 | per ring, on what is known beforehand: if the bytes queued and the bytes due fit, all of them enter the ring, whatever the consumers do and whatever happens at other sinks |
| Downlink.FirstFit | sel4/Mux/src/console_mux.c:238-254 | a ring nobody empties takes exactly the first bytes that there is room for and drops the others |
| Downlink.TakesAllIffTheyFit | sel4/Mux/src/console_mux.c:238-254 | so it takes all bytes due if and only if they fit |
| Downlink.DroppedYetAcknowledged | sel4/Mux/src/console_mux.c:273-276 | a frame is acknowledged once however much of it a ring nobody empties drops |
| Downlink.DownlinkDelivery | sel4/Mux/src/console_mux.c:257-313 | any list of raw-mode host writes to any streams: each sink is offered the in-order concatenation of the writes to its stream, all of it enters a ring that has the room, every write to a sink counts ceil(n / 512) acknowledgements and as many delivered frames if the sink has an emit function, and on any wire back the host's count rises by their number |
| Legacy.Writer.Write | host/tcu_com.c:1668-1764 | the chunk loop sends the tag once and every 0xff doubled, independent of the chunk size, and the raw PTY its bytes as they are, only with `-w`; the overflow branch is never taken |
| Legacy.SentBytes | host/tcu_com.c:1701-1756 | a write is the tag and the data with every 0xff doubled, from the raw PTY the data alone |
| Legacy.Reader.Decode | host/tcu_com.c:1487-1556 | the decode loop over escape flag, selected tag and PTYs computes the run of the transition function, the raw PTY getting every byte |
| Legacy.EveryLegacyByte | host/tcu_com.c:1518-1556 | on every byte sequence each tag's PTY gets exactly the literal bytes and doubled 0xff read while it is selected |
| Legacy.EveryScheduleDecodes | host/tcu_com.c:1701-1756 | for every schedule of writers each tag's PTY gets the in-order concatenation of the writes to it, and the raw PTY the wire as it is |
| Imports.Collect | tools/generate_camkes_stream_registry.py:169-194 | the worklist terminates, preprocesses no file twice, and collects the texts of exactly the files reachable through files with nonempty text, each once, the root first and the others in the order in which they are first imported |
| Generator.NextStreamId | tools/generate_camkes_stream_registry.py:215-218 | the first id from the given one on that is not reserved |
| Generator.Direction | tools/generate_camkes_stream_registry.py:221-229 | output or bidirectional exactly with a PutChar interface, input or bidirectional exactly with a GetChar interface |
| Generator.ComponentInstances | tools/generate_camkes_stream_registry.py:232-264 | rejects duplicate names and an empty assembly; else one stream per component, the k-th eligible one with id k, then 255, then 256 on |
| Generator.StreamIs | tools/generate_camkes_stream_registry.py:243-260 | the k-th stream has the name, type and interfaces of the k-th component, a source and an id only if it has interfaces |
| Generator.IdsDistinct | tools/generate_camkes_stream_registry.py:215-218 | generated ids grow, are never reserved, and are valid for the host exactly up to the 253rd |
| Json.MatchingPrinted | host/tcu_com.c:313-345 | in printed JSON the matching bracket of an array or object is its own last character, whatever its strings hold |
| Json.PassJson | host/tcu_com.c:250-255 | strstr passes over any printed value that does not contain the quoted word, whatever escapes its strings hold |
| JsonEscape.EscapeBody | tools/generate_camkes_stream_registry.py:523 | any text at all prints as a well-formed string body, with the escapes of json.dumps |
| JsonEscape.EscapeRoundTrip | tools/generate_camkes_stream_registry.py:523 | a JSON reader (section 7 of RFC 8259) gets back every text exactly, as UTF-16 code units |
| JsonEscape.EscapeLooks | tools/generate_camkes_stream_registry.py:523 | a text prints as a string that ends in a quoted word exactly when it is the word or ends in a quote and the word |
| KeySearch.FieldFound | host/tcu_com.c:375-386 | strstr finds a key of a printed object at the key itself when nothing in front of it reads like the key |
| KeySearch.KeyHidden | host/tcu_com.c:375-386 | a key behind an equal string value is not found, or found without a value |
| Registry.EntryRead | host/tcu_com.c:484-544 | of every printed stream object the host reads its component, id and direction, and exactly when it does not |
| Registry.RegistryRead | tools/generate_camkes_stream_registry.py:251-259 | print and parse, for any registry name and source text: the host reads from the printed registry exactly the generated streams in order; it rejects it exactly when one is rejected, nothing is added, or a string value hides the streams array |
| Registry.GeneratedAccepted | tools/generate_camkes_stream_registry.py:543-550 | a fresh host accepts a generated registry exactly when it has 1 to 253 streams, none with a built-in name, and no string value hides a key; its table is then the built-in entries and one entry per stream in order |
| Registry.NameStreamIdRejected | host/tcu_com.c:287-311 | a concrete generated registry that is rejected for the name of its one component, beside the accepted one that differs in that name |
| Registry.GeneratedEntry | host/tcu_com.c:544-556 | the k-th eligible component is found under its id, with its name and its input flag |
| EndToEnd.RegistryEffect | host/tcu_com.c:963-972 | the registry record takes a fresh inner machine to one fresh PTY per stream when it is accepted and stops it when not |
| EndToEnd.GuestsReachTheirPtys | sel4/Mux/src/console_mux.c:112-313 | from the generator to the PTYs, for every interleaving of guests and downlink and any wire to the host: the k-th guest's bytes are in the k-th stream's PTY, flushed plus pending is everything put, raw_ccplex holds the copy of the traffic, the two other built-in PTYs are untouched, and the acknowledgements owed are counted |
| EndToEnd.LongRegistryNeverArrives | sel4/Mux/src/console_mux.c:112-131 | a registry that does not fit the frame array never reaches the host: no run opens a stream, the unframed log gets everything flushed, in the order sent and without 0xfe, and acknowledgements are counted all the same |

## Left out

- PTY devices, termios, UUCP locking, baud rates, polling, timestamps, log files and argument parsing: operating-system plumbing. A write is an all-or-nothing append.
- Failure of memory allocation and thread creation: assumed to succeed. PTY creation may fail in the methods that apply a registry or a CONNECTED record; the byte machine and every result about runs assume that it succeeds.
- What a raw write enabled by `-w` does to the decoders: its bytes are unframed by design and break every round trip, so only its output is modelled.
- RPC reports, cycle counters, interrupts, serial drivers and memory barriers: not decided by this code. Counters are unbounded, not 64-bit.
- Sink tasks and clients run as atomic steps over a FIFO channel; the scheduling inside tokio and the retries of the sink are not modelled.
- Clients' names that are not valid UTF-8: an enrolled name is given as the bytes that the daemon sends.
- The getchar consumer on the target is an abstract step that advances the ring's head.
- The Debug, Null and Passthru sinks, the console router, the QEMU bridge and the exec wrapper: easy or without protocol state.
- C preprocessing, regular expressions, path resolution and the emitted C and header text of the generator: component instances, interfaces and import lists are inputs.
- The contents of the two connection tables of the registry are any printable JSON without a key `streams`.
- A registry name or source that is not valid Unicode; JSON escapes of all other texts are modelled.
- An interrupt in the middle of an uplink call: a call puts its bytes on the UART in one step. `Tokens.AckInsideEscapeBreaks` shows what an acknowledgement inside an escape pair would do.
- Legacy.Writer.Write: does not model a failing UART write, because a write is an all-or-nothing append.
- Outer.Writer.Write: does not model a failing UART write, because a write is an all-or-nothing append.
- ConsoleMux.Uplink.BatchBatch: requires that tail is within the batch, because the C code does not check it; the guest sink guarantees it.
