# RootStream: a verified model

RootStream streams a desktop to another device: video frames are cut into chunks, sealed and sent
over UDP or TCP, peers shake hands and reconnect, a bitrate controller follows the link, an echo
canceller cleans the microphone, and settings and recordings are kept in files. This project models
that logic in Dafny and proves what each part is for. Code that works in place is modelled as classes
and loops, each tied to a specification function; the lemmas then speak about whole runs of it.

- **Video** (`Wire`, `VideoSender`, `VideoReceiver`, `VideoRuns`, `VideoBounds`, `VideoRepeats`,
  `VideoSegments`). The packed 34-byte header, the 16-byte tag, chunks of at most 1326 bytes. The
  receiver keeps a frame id, an expected size and a byte counter. The channel is a state machine that loses and reorders; the invariant says that the
  counter equals the number of bytes covered by the disjoint chunks stored so far. `VideoBounds` takes
  any payloads and timeouts at all and says when the copy stays in the buffer; `VideoRepeats` takes
  repeated chunks of a frame, and `VideoSegments` any mixture of chunks of many frames, and say when
  what is shown is still what was sent.
- **TCP** (`TcpFraming`, `VideoOverTcp`). A 1400-byte buffer filled by arbitrary reads, one packet cut
  off per call. `VideoOverTcp` composes the sender, the sealing, the stream, the framing, the opening
  and the reassembly into one statement about which frames are shown.
- **Echo canceller** (`Vectors`, `Nlms`, `EchoCanceller`). The loops over a circular delay line and
  interleaved weights, against the mathematical filter; then contraction, monotone weight error and a
  bound on the residual energy of any run, over the reals.
- **Configuration** (`ConfigText`, `Config`, `ConfigLines`, `ConfigFields`, `ConfigSave`,
  `ConfigRoundTrip`, `PeerHistory`). Trimming in place, line reading, decimal text, what each field is
  after loading any text, and the printer against the parser; the fixed-array peer history against an
  unbounded most-recently-used list.
- **Peers** (`Handshake`, `Reconnect`, `Peers`, `PeerRuns`, `PeerTable`, `PeerLaws`,
  `PeerFailures`). The handshake payload, the backoff, each operation on one peer, the peer array in
  place, and every run of packets, ticks, sends, failures, health checks, sweeps and removals.
- **Bitrate** (`AbrEstimator`, `AbrLadder`, `AbrController`), **keyframe scan** (`KeyframeScan`), **latency
  report** (`Latency`), **recording file** (`Recording`).

Integers are unbounded unless a width matters; 16-, 32- and 64-bit fields, frame-id increments, the
unsigned timestamp differences and the casts of the parser are written out. The packed structs are
taken as little-endian. `float` and `double` are taken as `real`.

## Where the code and its intent part

Each of these is a lemma below, with the exact condition under which the code does what is wanted.

- A header is 34 bytes; the comment at src/network.c:7 says 32. The model follows the struct.
- The copy into the reassembly buffer can leave it. A chunk is checked against the frame size it
  carries (src/network.c:621), the buffer is sized by the chunk that opened the frame id
  (src/network.c:636-650). The copies of a run stay inside if and only if no accepted chunk ends past
  the largest size granted since the last peer timeout while the size its id was opened with fits: a
  timeout frees the buffer but keeps the id and size (src/network.c:832-836), and packets are still
  accepted after it. It happens without any bad intent: a sender that restarts numbers its frames from
  1 again (src/network.c:480, 1045), while the receiver keeps the slot it finds by address
  (src/network.c:463). A first chunk with id 0, the value the fields start with, finds no buffer at
  all; ids wrap to 0.
- A chunk that arrives twice is counted twice (src/network.c:654). The frame shown first is the one
  sent, whatever memory held before, if and only if all its chunks arrive and, before the last missing
  one, fewer bytes were repeated than that chunk has. Every chunk of the same id after that shows the
  frame once more. Since the count starts again at every change of id, the same holds segment by
  segment when frames are mixed; without repeats a frame is shown exactly when all its chunks arrive in
  one uninterrupted segment.
- A peer timeout in mid-frame frees the buffer but keeps the counter (src/network.c:832-836). With the
  remaining chunks alone the frame is not shown right unless fresh memory happens to hold the old bytes.
- Frames over 16 MiB are sent (src/network.c:111-162) but their chunks are refused (src/network.c:619),
  up to 4 GiB: from there the announced size wraps, and a frame of 4 GiB and 16 MiB is accepted again.
- A packet that is complete in the TCP buffer is handed out if and only if the call also reads new
  bytes (src/network_tcp.c:192-213). After m reads the number handed out is the least, over j, of the
  packets complete after j reads plus m - j; nothing is left waiting exactly when no run of last reads
  completes more packets than there are reads in it. A header that claims more than 1400 bytes fills
  the buffer for good, and the next byte that arrives closes the connection.
- A TCP send that the socket takes only in part leaves the rest out (src/network_tcp.c:152-165). The
  receiver still cuts off that packet if and only if the bytes sent next begin with the missing rest.
- The count of failed attempts is reset by a successful attempt only: `peer_reconnect_reset` has no caller.
  A peer that fails its tenth attempt in a sweep is removed; if a send, a health check or a lost TCP
  connection makes that attempt, the peer stays in its slot, FAILED. Revived by a handshake, it becomes
  FAILED again at the first failed attempt that is due.
- Under a constant bandwidth b the bitrate level settles on the best one for 0.85 b, unless that level
  needs exactly 0.85 b and the average comes from below.
- PING and PONG never leave: they are sent with a null payload (src/network.c:791, 841), which
  `crypto_encrypt_packet` refuses (src/crypto.c:454). docs/PROTOCOL.md:145 promises a periodic keepalive.
- A handshake retry is followed by a timeout check against the clock read before the retry
  (src/network.c:816-823). If the clock advanced in between, the unsigned difference wraps and the
  peer is dropped.
- `rootstream_connect_to_peer` leaves the peer CONNECTING (src/network.c:1271). A tick resends or drops a
  handshake if and only if the peer is in HANDSHAKE_SENT, so no run of ticks, sweeps and health checks
  ever follows up a connect.
- A hostname of more than 63 bytes is dropped by the receiver although identities may have 127.
- A keyframe header that is the very last byte of the stream, behind a three-byte start code without a
  zero before it, is not seen.
- A settings value comes back from the file exactly if it neither begins nor ends with a blank, holds
  no newline, and its line fits 254 characters; a history whose last entry is empty comes back shorter.

## Model

| member | source | states |
|---|---|---|
| Bytes.LERoundTrip | include/rootstream.h:238-287 | a value that fits its little-endian field of any width is read back from it |
| Bytes.LEByte | include/rootstream.h:238-287 | byte i of a field is the i-th digit of its value to the base 256, least significant first |
| Wire.HeaderFields | src/network.c:307-314 | magic, version, type, nonce and payload size are found again at their offsets, whatever follows the header |
| Wire.HeaderLayout | include/rootstream.h:238-247 | the 34 bytes of a header: magic, version 1, type, no flags, nonce, payload size and tag, each at its place |
| Wire.ValidateMeans | src/packet_validate.c:7-25 | a packet is accepted exactly from 34 bytes on, with the four magic bytes, version 1, and an announced payload that is there |
| Wire.SealOpen | src/network.c:259-356 | a payload is refused exactly above 1350 bytes; otherwise the packet has at most 1400 bytes, the validator accepts it, it announces its own length, and opening it gives the payload back |
| VideoSender.ChunksTile | src/network.c:135-158 | chunk k holds exactly the bytes b with b / 1326 = k, none is empty or over 1326 bytes, and the cuts run from 0 to the frame size |
| VideoSender.ChunkLayout | include/rootstream.h:279-287 | the 24 bytes of a chunk header, each field at its place, and the chunk's bytes behind them |
| VideoSender.SlicesJoin | src/network.c:135-158 | the first n slices of a frame are a prefix of it, and all of them are the frame |
| VideoSender.Sender.EmitChunks | src/network.c:128-161 | the loop sends the chunks of the frame in order up to the first one the transport refuses, and returns 0 exactly when none was refused |
| VideoSender.Sender.SendVideo | src/network.c:111-162 | an empty frame is refused with nothing changed; otherwise the frame id advances modulo 2^32 whether or not all chunks leave, and 0 means all left |
| VideoSender.ChunkFitsPacket | src/network.c:135-158 | every chunk of every frame makes a packet of at most 1400 bytes that validates and opens to that chunk |
| VideoReceiver.SentChunkParsesIff | src/network.c:141-158 | for frames of any size, a sent chunk passes the receiver's checks exactly when it lies in the frame that its truncated 32-bit size and offset announce |
| VideoReceiver.SentChunkParses | src/network.c:609-634 | below 4 GiB, a sent chunk passes the checks if and only if its frame has at most 16 MiB, and is then the chunk that was sent |
| VideoReceiver.HugeFrameAccepted | src/network.c:141-147 | the first chunk of a frame of 4 GiB and 16 MiB is taken for one of a 16 MiB frame |
| VideoReceiver.Receiver.DropBuffer | src/network.c:832-836 | a peer timeout takes the buffer away and keeps id, size and counter |
| VideoReceiver.Receiver.EnsureCapacity | src/network.c:642-650 | the buffer grows to the expected size keeping what was in it, or is untouched when memory is refused |
| VideoReceiver.Receiver.OnAccepted | src/network.c:636-663 | in place: the fields, the buffer and the frame shown are those of the chunk specification; a copy that would leave the buffer is reported instead of made |
| VideoReceiver.Receiver.OnVideo | src/network.c:609-663 | for every payload, in place: dropped without effect, stored, or reported as leaving the buffer, as specified on values |
| VideoReceiver.ParseEncode | src/network.c:609-634 | a chunk passes the receiver's checks exactly when its size is in bounds and it lies in its frame, and then comes out unchanged |
| VideoReceiver.ParseMeans | src/network.c:609-634 | a payload passes the checks exactly with 24 bytes of header, a frame size from 1 to 16777216, offset and chunk size inside it, and exactly that many bytes; the fields are read from their places |
| VideoReceiver.TimeoutKeepsCount | src/network.c:832-836 | after a timeout the next chunk of the frame counts on, in a buffer of the expected size |
| VideoBounds.OutOfBoundsIff | src/network.c:636-654 | the copy of a chunk leaves the buffer exactly when it has the current id, memory is there, and it ends past both the buffer and the expected size |
| VideoBounds.StaysInBoundsIff | src/network.c:609-663 | for every sequence of payloads and peer timeouts and every answer of the allocator: all copies stay inside if and only if no accepted chunk ends past the largest opened size granted since the last timeout while its own opened size fits |
| VideoBounds.AgreementIsSafe | src/network.c:636-654 | payloads whose chunks under one uninterrupted id agree on the frame size, none starting with id 0, never leave the buffer, whenever the peer times out |
| VideoBounds.TwoPayloadsLeave | src/network.c:619-654 | two payloads that pass every check, of which the second is copied outside the buffer |
| VideoBounds.FirstIdZeroLeaves | src/network.c:636-654 | a first chunk with id 0 leaves the missing buffer unless it is empty and at offset 0 |
| VideoBounds.RestartLeavesIff | src/network.c:463-482 | after a sender's restart a chunk of the new frame leaves the buffer exactly when there is memory for the old frame and it ends past both the old frame and the buffer; after a timeout, past the old frame |
| VideoBounds.RestartLeaves | src/network.c:463-482 | frame 1 of 10 bytes and then a new frame 1 of 1000 bytes, sent by an honest sender before and after a restart, leave the buffer, with a timeout between them or without |
| VideoBounds.TimeoutLeaves | src/network.c:832-836 | three chunks that stay in the buffer leave it when the peer times out before the last |
| VideoRuns.ArriveOnBytes | src/network.c:609-663 | on every reachable state the arrival step of the channel is what the receiver does with the sender's bytes |
| VideoRuns.StoreChunk | src/network.c:636-663 | one new chunk: the counter stays the number of covered bytes, the copy stays in the buffer, and the frame is shown exactly when its last missing chunk is stored |
| VideoRuns.StepKeeps | src/network.c:609-663 | sending, losing, delivering in any order and junk keep the invariant: counted bytes are disjoint written ranges of the frame under the current id |
| VideoRuns.ReassemblySafety | src/network.c:615-663 | over every run with loss and reordering across frames, no copy leaves the buffer, every frame shown is byte for byte a sent frame with its timestamp, and none is shown twice |
| VideoRuns.AnyOrder | src/network.c:636-663 | the chunks of a frame delivered in any permutation show the frame exactly at the last one and nothing before it |
| VideoRuns.CountExactIff | src/network.c:654-656 | a chunk of the frame being collected keeps the counter equal to the bytes covered if and only if it was not stored before |
| VideoRepeats.FirstFrameRightIff | src/network.c:636-663 | for every order with repeats and any bytes counted before, the frame shown first is the one sent, for all earlier contents of memory, if and only if its chunks are all there and the bytes repeated or counted before the last missing one are fewer than that chunk's (or it is the first to arrive) |
| VideoRepeats.ShownEachTime | src/network.c:654-663 | from the arrival that fills the counter on, each arrival of the same id shows the frame once more, right every time if all chunks had been written |
| VideoRepeats.CompletionFills | src/network.c:654-656 | the last missing chunk always fills the counter, and is the first to do so exactly when it comes in time |
| VideoRepeats.CountSplits | src/network.c:654 | the counter is the number of covered bytes plus the number of repeated ones |
| VideoRepeats.DistinctIsInTime | src/network.c:654 | without repeats every complete order is in time |
| VideoRepeats.TimeoutLosesFrame | src/network.c:832-836 | after a timeout in mid-frame, the remaining chunks alone do not show the frame right in every memory |
| VideoSegments.WatchTracks | src/network.c:636-663 | after any arrivals the fields are those of the current segment, the buffer holds the last bytes written, and something is shown exactly when the segment's count is full |
| VideoSegments.RunRightIff | src/network.c:636-663 | any mixture of loss, reordering, repeats and ids: everything shown is right for every memory if and only if at each arrival that fills a count all bytes of its frame are the last ones written to their places |
| VideoSegments.InTimeIffComplete | src/network.c:654-656 | no segment fills its count before all its chunks are there if and only if each one that fills it is in time |
| VideoSegments.InTimeRunIsRight | src/network.c:636-663 | if every segment is in time, everything shown is the frame sent |
| VideoSegments.ShownIffWhole | src/network.c:654-663 | without repeats in its segment, an arrival shows a frame exactly when all its chunks came in one uninterrupted segment |
| VideoSegments.DistinctRunIsRight | src/network.c:636-663 | a run without repeats in any segment shows only frames that were sent |
| VideoRuns.DuplicateShowsWrongFrame | src/network.c:654-663 | a two-chunk frame whose first chunk arrives twice is shown with bytes that were not sent |
| TcpFraming.TcpPeer.Recv | src/network_tcp.c:172-237 | in place: the connection flag, the buffered bytes and the answer after each kind of read |
| TcpFraming.ReceiveAnswers | src/network_tcp.c:172-237 | for every state and read: an error exactly on a connection that is gone or ends now, nothing exactly without data or a complete packet, else the first packet; the connection stays up exactly if it was and the read neither failed nor was closed |
| TcpFraming.LostForGood | src/network_tcp.c:177-210 | over runs the connection is lost at the first failed or closed read, and every call from then on answers an error |
| TcpFraming.TcpPeer.CutPacket | src/network_tcp.c:215-237 | exactly the first complete packet is handed out and the rest moved to the front |
| TcpFraming.BytesConserved | src/network_tcp.c:184-237 | for every byte stream, well-formed or not, the packets handed out followed by the buffer are exactly the bytes received |
| TcpFraming.FrontIsNext | src/network_tcp.c:215-227 | while the stream is made of well-formed packets, the packet cut off is the next one sent, or nothing is cut and the buffer is not full |
| TcpFraming.PrefixDelivered | src/network_tcp.c:184-237 | however reads split a stream of well-formed packets, the packets handed out are a prefix of those sent and the buffer holds fewer than 1400 bytes |
| TcpFraming.FullIff | src/network_tcp.c:184-227 | the buffer is full after a call if and only if 1400 bytes wait behind a header that claims more than fits |
| TcpFraming.FullNeverDelivers | src/network_tcp.c:184-227 | once full, no call delivers or reads again, and the connection lives exactly as long as there is nothing to read |
| TcpFraming.FrontDeliveredIff | src/network_tcp.c:192-237 | with a complete packet at the front, a call hands it out if and only if it also reads bytes |
| TcpFraming.IdleNeverDelivers | src/network_tcp.c:184-213 | calls that read no bytes hand out nothing, whatever the buffer holds |
| TcpFraming.HandedOutCount | src/network_tcp.c:184-237 | after any legal inputs, the number of packets handed out is built read by read: one more, as far as they are complete |
| TcpFraming.HandedOutIsLeast | src/network_tcp.c:184-237 | that number is the minimum over j of the packets complete after j reads plus the reads since |
| TcpFraming.NothingWaitsIff | src/network_tcp.c:184-237 | no complete packet is left in the buffer if and only if all complete ones were handed out, which holds exactly when no last reads complete more packets than there are reads |
| TcpFraming.SecondPacketWaits | src/network_tcp.c:184-237 | two packets read at once yield only the first, however often the code polls again |
| TcpFraming.TcpSender.Send | src/network_tcp.c:127-165 | what leaves is a prefix of the data, 0 means all of it, and the connection is lost exactly when the first refusal is a failure and not a full socket |
| TcpFraming.RefusedSend | src/network_tcp.c:136-165 | if the socket takes less than the packet before it refuses, exactly that is on the wire, -1 is returned, and the connection lives exactly if the socket was full |
| TcpFraming.AcceptedSend | src/network_tcp.c:136-165 | if the socket takes the whole packet, all of it is on the wire, 0 is returned and the connection lives |
| TcpFraming.RejectedSend | src/network_tcp.c:128-135 | without data or connection nothing is sent and -1 is returned |
| TcpFraming.StreamStaysFramed | src/network_tcp.c:141-165 | over several sends, as long as nothing is started behind a half sent packet, the stream is the packets started, one after another, the last perhaps cut short |
| TcpFraming.PartialIsWholeIff | src/network_tcp.c:152-165 | behind a packet sent in part, the receiver cuts off that packet if and only if the bytes that follow begin with the rest of it |
| VideoOverTcp.PacketIsSealed | src/network.c:259-356 | every chunk packet is one the TCP framing can cut and the receiver can open and parse |
| VideoOverTcp.StreamLength | src/network.c:111-162 | the frames of a session make exactly the packets their chunk counts add up to, all well-formed |
| VideoOverTcp.ShownInOrder | src/network.c:636-663 | after any number of packets from the front of the stream, the frames shown are the first ones, in order |
| VideoOverTcp.VideoInOrder | src/network.c:418-449 | end to end: however TCP reads split the stream or cut it short, the frames shown are the first frames sent, byte for byte and in order, exactly those whose packets were all handed out, and the number of those packets follows from the sizes of the reads |
| Nlms.APosterioriError | src/audio/echo_cancel.c:88-111 | after the update, the error of the same sample is err (1 - mu P_c / P) |
| Nlms.RateMeans | src/audio/echo_cancel.c:100 | above a power of 1e-10 the step times the power is mu; at or below it there is no step |
| Nlms.PastMeans | src/audio/echo_cancel.c:78-86 | a new frame is the most recent one, the others are one frame older, and before the start there is silence |
| Nlms.PowerIsSum | src/audio/echo_cancel.c:93-99 | the power summed tap by tap is the sum of the powers of the first eight channels |
| Nlms.ChannelPowerBound | src/audio/echo_cancel.c:96-104 | a channel's power lies between 0 and the total, and is the total when it is alone |
| Nlms.ErrorContracts | src/audio/echo_cancel.c:88-111 | for each of the first eight channels the a posteriori error is never larger; with one channel and a power above 1e-10 it is exactly (1 - mu) err |
| Nlms.WeightErrorShrinks | src/audio/echo_cancel.c:104-111 | when the microphone is the reference filtered by h, a frame shrinks the squared distance of the weights to h by at least mu (2 - mu) err^2 / P, and a silent one leaves it |
| Nlms.FrameImproves | src/audio/echo_cancel.c:100-111 | every frame with a power above 1e-10 brings the weights nearer to the echo path by at least mu (2 - mu) err^2 / P |
| Nlms.RunBudget | src/audio/echo_cancel.c:77-114 | over a run from any weights, the final distance plus mu (2 - mu) times the residual energy is at most the initial distance |
| Nlms.ResidualBound | src/audio/echo_cancel.c:77-114 | from zero weights and any echo path of at most `taps` taps, the residual energy of any run is at most the squared length of h over mu (2 - mu), per channel |
| Nlms.ResidualCounts | src/audio/echo_cancel.c:100-104 | the residual energy counts err^2 / P of every frame with a power above 1e-10, and nothing else |
| EchoCanceller.TurnsHolds | src/audio/echo_cancel.c:86-88 | the slot read for k frames ago is the one written k frames ago, also across the wrap |
| EchoCanceller.Aec.constructor | src/audio/echo_cancel.c:34-46 | taps and step size with their defaults; weights and delay line start at zero |
| EchoCanceller.Aec.Create | src/audio/echo_cancel.c:29-58 | nothing is created exactly for a non-positive rate or channel count; otherwise taps, step size and zeroed state as configured |
| EchoCanceller.Aec.InsertFrame | src/audio/echo_cancel.c:78-81 | after the insertion the slot k frames back holds the reference of k frames ago, or 0 before the start |
| EchoCanceller.Aec.EchoEstimate | src/audio/echo_cancel.c:84-90 | the estimate of each processed channel is the convolution of its weights with the last `taps` reference samples |
| EchoCanceller.Aec.ReferencePower | src/audio/echo_cancel.c:93-99 | the power is that of the last `taps` frames over the processed channels |
| EchoCanceller.Aec.UpdateChannel | src/audio/echo_cancel.c:106-110 | one channel's weights move along its reference window; the others stay |
| EchoCanceller.Aec.CancelFrame | src/audio/echo_cancel.c:102-111 | outputs are errors before the update, weights the adapted ones, also when output and microphone are one buffer; nothing else is written |
| EchoCanceller.Aec.Process | src/audio/echo_cancel.c:68-115 | a call gives, for every processed channel and frame, the outputs and final weights of the mathematical filter, and touches no other channel or cell |
| ConfigText.TrimInPlace | src/config.c:120-141 | in place, the buffer's string becomes the trimmed string |
| ConfigLines.TrimMeans | src/config.c:120-141 | trimming takes blanks and tabs off the front, and these and line ends off the back, of any string |
| ConfigLines.CommentLine | src/config.c:167-170 | a line whose first character behind blanks is # or ; is skipped |
| ConfigLines.SectionLine | src/config.c:173-185 | a name in brackets starts the section of that name, cut to 63 characters, whatever follows |
| ConfigLines.EntryLine | src/config.c:187-199 | a key and a value around the first =, with any blanks around both, are that entry |
| ConfigLines.EmptyEntryLine | src/config.c:187-199 | with nothing behind the = the value is empty |
| ConfigLines.OtherLine | src/config.c:187-191 | a line without = that is no section is skipped |
| ConfigLines.AtoiMeans | src/config.c:205-213 | white space, a sign, leading zeros and anything behind the digits leave the number as it is |
| ConfigLines.NoNumber | src/config.c:205-213 | text that does not begin with a number reads as 0 |
| ConfigText.SignedRoundTrip | src/config.c:170-246 | reading the decimal print of any int gives the int |
| ConfigText.LineIsRead | src/config.c:162-165 | a line of fewer than 255 characters is read whole, up to its newline |
| Config.SettingsStore.SetEntry | src/config.c:197-246 | in place, one entry changes exactly the field its section and key name, or nothing |
| Config.SettingsStore.LoadIni | src/config.c:150-250 | in place, the fields after loading are the specification's, from defaults and the file's text |
| ConfigFields.FieldsLoaded | src/config.c:97-246 | for every text and field: the value of the last entry of its section and key, cut or wrapped to its range, and the default, written out, where there is none |
| ConfigFields.DefaultsLoaded | src/config.c:97-113 | an empty or missing file gives exactly the defaults |
| ConfigFields.HistoryLoaded | src/config.c:232-244 | each of the 32 slots holds the last entry that names it, cut to 127 characters, and the count reaches past the highest slot named |
| ConfigSave.SaveHistory | src/config.c:296-300 | one line per non-empty history entry, with its index |
| ConfigSave.SaveIni | src/config.c:259-305 | the text printed is the list of lines of the specification |
| ConfigSave.KeyLineParses | src/config.c:170-195 | a printed key and clean value are found again; '=' inside the value does not matter |
| ConfigSave.ValueSurvivesIff | src/config.c:170-195 | on its line a value comes back if and only if it neither begins nor ends with a blank |
| ConfigSave.LoadsItems | src/config.c:162-250 | loading a file is following, line by line, what its lines mean |
| ConfigSave.EntrySurvivesIff | src/config.c:162-195 | in the file an entry comes back as itself if and only if its value is clean at both ends and holds no newline, and its line fits the reader's buffer |
| ConfigSave.LoadsLines | src/config.c:162-250 | the file is read back as the lines that were printed |
| ConfigRoundTrip.HistoryRead | src/config.c:232-244 | reading the printed entries fills the history slot by slot, skipping the empty ones |
| ConfigRoundTrip.ConfigRoundTrips | src/config.c:150-305 | loading what was saved restores every field, the history and the last connected peer, and restores the count if and only if the last entry is not empty |
| ConfigRoundTrip.HistorySurvives | src/config.c:363-416 | after any additions, saving and loading gives the same list: the distinct codes, most recent first, cut to 32 |
| PeerHistory.History.AddPeerToHistory | src/config.c:363-416 | in place, the list becomes the one with the code moved or put in front, cut to 32 |
| PeerHistory.History.ShiftDown | src/config.c:390-405 | the first n entries move up by one place, the others stay |
| PeerHistory.HistoryIsLru | src/config.c:363-416 | after any additions the array holds the distinct codes, most recent first, cut to 32, without duplicates, the last code first |
| PeerHistory.OddCodes | src/config.c:363-416 | an empty code is ignored; one of 128 characters or more is never recognised and enters cut short each time |
| PeerHistory.RecentByLastUse | src/config.c:363-416 | "most recent first" means strictly ordered by the time of last use |
| Reconnect.ReconnectCtx.TryReconnect | src/network_reconnect.c:50-106 | in place, the counters and the verdict of one attempt |
| Reconnect.ReconnectCtx.ResetBackoff | src/network_reconnect.c:121-128 | the count and the backoff start again, the waiting time stays |
| Reconnect.BackoffHolds | src/network_reconnect.c:50-106 | over every run, an attempt after k failures comes at least min(100 2^k, 30000) ms later, and giving up is exactly the tenth failure in a row |
| Reconnect.StreakLasts | src/network_reconnect.c:86-106 | within a streak, the m-th next failure is later by at least the sum of the delays |
| Reconnect.NeverFailsEarly | src/network_reconnect.c:50-106 | a peer is never given up earlier than 81000 ms after the first failed attempt of the streak |
| Handshake.ParsePayload | src/network.c:495-541 | the scan for the hostname, version and flags, in its own form |
| Handshake.HandshakeRoundTrip | src/network.c:865-875 | the payload is key, identity, NUL, version and flags; for every key and identity of up to 127 bytes the peer recovers key, version and flags, and the hostname if and only if it has at most 63 bytes |
| Handshake.OldHandshakeAccepted | src/network.c:524-535 | a payload without version and flags is taken as version 1 without flags |
| Handshake.ShortHandshake | src/network.c:497-500 | a payload is too small exactly below 32 bytes |
| Handshake.AnyVersion | src/network.c:524-541 | with any name, flags and bytes behind them, only version 1 is accepted |
| Handshake.UnterminatedName | src/network.c:510-541 | without a NUL there is no name, and the bytes one behind the key are taken for version and flags |
| Peers.SendAdvances | src/network.c:259-356 | a send uses the session's counter as nonce and passes it, and keeps the peer secure even when the transport fails and a reconnect follows |
| Peers.TickAdvances | src/network.c:812-845 | a tick sends at most one packet, under the session's counter, which it then passes, and keeps the peer secure through retries, timeouts and keepalives |
| Peers.PacketAdvances | src/network.c:489-577 | a received packet makes the peer send at most one, under the session's counter, and keeps it secure; an accepted handshake opens a new session whose first packet has nonce 0 |
| Peers.SendsIff | src/network.c:259-356 | a packet is given to a socket exactly when the peer is ready, authenticated and has a transport, connected if it is TCP, the payload fits and is not null, and encryption works; success is only reported then |
| Peers.PingNeverSent | src/network.c:839-843 | no tick and no received PING puts a packet on the wire; only a nonce is spent |
| Peers.RetryWaitsIff | src/network.c:816-823 | a handshake retried over UDP or the TCP fallback keeps waiting if and only if the clock did not advance during the tick |
| Peers.HandshakeMovesIff | src/network.c:815-826 | some clock and network make a tick resend or drop a handshake if and only if the peer is in HANDSHAKE_SENT |
| Peers.TickMovesIff | src/network.c:812-845 | of the secure peers, a tick can ever change exactly those in HANDSHAKE_SENT or CONNECTED |
| PeerLaws.ConnectedTick | src/network.c:826-845 | a connected peer is dropped after 5000 ms of silence, and else spends a nonce on a keepalive every 1000 ms |
| PeerLaws.WaitingTick | src/network.c:815-824 | a peer waiting for a handshake is left alone for 1000 ms; then the handshake is resent, or the peer dropped from 5000 ms on if that fails |
| PeerLaws.IdleTick | src/network.c:812-845 | peers in any other state are left alone |
| PeerLaws.HealthMeans | src/service.c:45-66 | the health check acts exactly on connected peers heard before, after more than 30000 ms of silence |
| PeerLaws.ControlMeans | src/network.c:715-785 | PAUSE and DISCONNECT stop the stream, RESUME starts it, DISCONNECT alone changes the state, and only if the packet is authentic |
| PeerLaws.HeardMeans | src/network.c:489-491 | media, PONG and unknown packets only say that the peer is there, a PING spends a nonce as well |
| PeerLaws.RefusedHandshake | src/network.c:496-558 | what a handshake that is too short, of another version or without a session leaves behind |
| PeerLaws.AcceptedHandshake | src/network.c:545-577 | an accepted handshake gives the peer the sender's key and a new session, connects it if the answer leaves, and makes a client ask for a keyframe under nonce 0 |
| PeerLaws.ShakeMeans | src/network.c:859-931 | when a handshake leaves, over which transport, and which fields it sets |
| PeerLaws.SendMeans | src/network.c:259-356 | when a send is allowed, that it spends exactly one nonce, when it succeeds, and what a failed one leaves |
| PeerLaws.TcpLossMeans | src/network_tcp.c:148-160 | a full socket stamps the time of sending, any other failure takes the TCP connection down |
| PeerLaws.RetryMeans | src/network_reconnect.c:50-106 | when an attempt is made, what decides it, and the count, delay, state and verdict it leaves |
| PeerLaws.LossMeans | src/network.c:345-353 | a lost transport leaves the peer DISCONNECTED unless an attempt that is due succeeds at once |
| PeerRuns.SweepIsSurvivors | src/network.c:381-394 | the backward sweep with removal in place examines every peer once and leaves those that did not give up, in order |
| PeerLaws.SweepMeans | src/network.c:381-394 | the sweep tries exactly the DISCONNECTED peers whose backoff has run out, and removes exactly those whose tenth or later attempt fails |
| PeerLaws.TickEach | src/network.c:806-846 | a tick of the table is a tick of every peer |
| PeerRuns.StepKeeps | src/network.c:457-577 | every event keeps: at most 16 peers, secure states, distinct live sessions, each ahead of the nonces sent under it |
| PeerRuns.PeersStaySecure | src/network.c:987-1070 | over every run: at most 16 peers, an authenticated session behind every usable or retried peer, strictly increasing nonces within a session |
| PeerRuns.ConnectLeavesConnecting | src/network.c:1247-1276 | every successful connect leaves its peer in CONNECTING at the resolved address |
| PeerRuns.ConnectingIsNeverRetried | src/network.c:806-846 | every run of ticks, sweeps and health checks keeps the list of CONNECTING peers exactly as it was |
| PeerRuns.ConnectedPeerWaits | src/network.c:1265-1271 | so the peer of a successful connect is still there, unchanged, after any such run |
| PeerFailures.FailuresAreCounted | src/network_reconnect.c:81-106 | over every run of the table a peer's backoff is the delay for the failures since its last successful attempt, and only a peer with ten of them is FAILED |
| PeerFailures.LoseFailsIff | src/network_reconnect.c:50-99 | losing the transport makes a peer FAILED exactly when an attempt is due, does not succeed, and is a tenth or later failure |
| PeerFailures.FailsIff | src/service.c:54-63 | the same for a refused send, a health check and a lost TCP connection |
| PeerFailures.FailedIsNeverRemoved | src/network.c:381-394 | no run of ticks, sweeps and health checks removes or changes a FAILED peer |
| PeerFailures.TenthFailureSticks | src/network.c:345-353 | a connected peer whose last attempt is made by a send, a health check or a lost TCP connection stays in the table, FAILED, through any such run |
| PeerFailures.HandshakeKeepsCount | src/network.c:547-571 | a host that accepts and answers a handshake connects the peer and keeps its count |
| PeerFailures.RevivedFailsAtOnce | src/network.c:547-571 | a FAILED peer that comes back by a handshake is FAILED again exactly when its next due attempt does not succeed |
| PeerTable.Table.FindPeerByAddr | src/network.c:70-101 | the first live peer with this address |
| PeerTable.Table.FindPeer | src/network.c:1079-1091 | the first live peer with this key |
| PeerTable.Table.ProcessReceivedPacket | src/network.c:457-487 | in place: unknown senders get a slot only by a handshake and below 16 peers, then the packet acts on that slot alone |
| PeerLaws.KnownSender | src/network.c:463-493 | a packet from a live peer's address acts on the first peer with that address and on no other |
| PeerLaws.UnknownSender | src/network.c:463-493 | a stranger gets a slot by a handshake below 16 peers and is ignored otherwise |
| PeerLaws.AddKnown | src/network.c:1001-1018 | adding a known key renames the first such peer and gives it a session only if it has none |
| PeerLaws.AddNew | src/network.c:1020-1070 | a new code is refused for a bad or zero key, at 16 peers or without a session, and else appended as a DISCOVERED UDP peer with a fresh session |
| PeerLaws.ConnectMeans | src/network.c:1247-1276 | a connect succeeds exactly when adding works, the name resolves and the handshake leaves, and touches that slot alone |
| PeerTable.Table.AddByCode | src/network.c:987-1070 | in place: a known key renews its session only if unauthenticated; a new one is counted only when everything succeeded |
| PeerTable.Table.RemovePeer | src/network.c:1093-1125 | the peer is taken out and the order of the others kept; a bad index changes nothing |
| PeerTable.Table.ReconnectSweep | src/network.c:381-394 | in place, the sweep leaves exactly the survivors |
| PeerTable.Table.NetTick | src/network.c:806-846 | in place, one tick of every live peer in order |
| AbrEstimator.Estimator.Update | src/abr/abr_estimator.c:30-40 | the stored average is the average of all samples since the last reset |
| AbrEstimator.EwmaBetween | src/abr/abr_estimator.c:30-40 | the average lies between two of the samples |
| AbrLadder.Ladder.Select | src/abr/abr_ladder.c:52-64 | the chosen index is the largest that fits the budget, or 0 |
| AbrLadder.BestIsUnique | src/abr/abr_ladder.c:52-64 | on a sorted ladder there is one such index |
| AbrLadder.BestIsMonotone | src/abr/abr_ladder.c:52-64 | a larger budget never selects a lower level |
| AbrController.Controller.DoTick | src/abr/abr_controller.c:51-115 | in place, the next level, the counter and the decision flags against the tick specification |
| AbrController.Controller.ForceLevel | src/abr/abr_controller.c:40-49 | a level outside the ladder is refused unchanged; otherwise it is forced, or automatic mode returns |
| AbrController.UpgradesAreEarned | src/abr/abr_controller.c:51-115 | over every run the level exists and 3 upgrades + stable ticks never exceed the ticks |
| AbrController.ReadyTick | src/abr/abr_controller.c:75-110 | from the third sample on: down at once, up by one level at the third tick that allows it, with the counter in each case |
| AbrController.NotReadyTick | src/abr/abr_controller.c:64-73 | before the third sample an automatic tick falls back to the lowest level |
| AbrController.ForcedTick | src/abr/abr_controller.c:55-62 | a forced level holds whatever is measured, until it is released |
| AbrController.TickWithinBudget | src/abr/abr_controller.c:75-114 | after an automatic tick with a ready estimate the level is 0 or its bitrate is at most 0.85 times the average and some sample since the reset |
| AbrController.Converges | src/abr/abr_controller.c:75-114 | under a constant target the level moves monotonically, reaches it in one tick from above or 3 (target - current) from below, and stays |
| AbrEstimator.EwmaConstant | src/abr/abr_estimator.c:30-40 | a constant stream has that constant as its average |
| AbrEstimator.EwmaApproaches | src/abr/abr_estimator.c:30-40 | after any history, k samples of b bring the average to b up to (1 - alpha)^k of the first distance |
| AbrEstimator.EnoughSamples | src/abr/abr_estimator.c:30-40 | after enough samples of b the average stays as near to b as wanted |
| AbrController.RoundsAreTicks | src/abr/abr_controller.c:51-115 | rounds of a constant sample and a tick are ticks towards the ladder's level for 0.85 times it |
| AbrController.SteadyStreamConverges | src/abr/abr_controller.c:51-115 | estimator, ladder and controller together: on a stream that has shown only b, the level moves monotonically, reaches the best level for 0.85 b in one round from above or 3 per level from below, and stays |
| AbrController.StreamSettlesIff | src/abr/abr_controller.c:51-115 | after any history, a constant bandwidth b makes the level settle on the best one for 0.85 b if and only if that is the lowest, or does not need exactly 0.85 b, or the average is not below b |
| KeyframeScan.Detect | src/vaapi_encoder.c:68-139 | despite its skips the scan finds a keyframe exactly when a start code with a keyframe header is somewhere it can see |
| KeyframeScan.KeyHeaders | src/vaapi_encoder.c:84-88 | the header bytes taken for keyframes in H.264 and H.265, one by one |
| KeyframeScan.MissedIff | src/vaapi_encoder.c:68-139 | the scan agrees with Annex B unless the only keyframe is a bare tail |
| KeyframeScan.MissedKeyframe | src/vaapi_encoder.c:68-97 | such a stream exists |
| Latency.LatencyStats.Record | src/latency.c:166-176 | the ring holds the last samples, each in its slot |
| Latency.LatencyStats.FillMetricSamples | src/latency.c:49-63 | the arrays of a report are the last min(n, capacity) samples in the order recorded |
| Latency.NearestRank | src/latency.c:29-43 | of the m samples at least p m are at most the reported value and fewer than p m below it, whatever order they came in |
| Latency.PercentilesOrdered | src/latency.c:29-43 | a larger percentile is never a smaller value |
| Latency.PercentileEnds | src/latency.c:29-37 | the percentiles at and beyond the ends and of nothing; any other is one of the samples |
| Recording.Recorder.Init | src/recording.c:43-83 | a new file is exactly the 64-byte header |
| Recording.Recorder.WriteFrame | src/recording.c:89-117 | the file stays the header and the encoded frames, the counters stay the numbers of frames and bytes; an empty frame is refused |
| Recording.Reader.ReadHeader | src/recording.c:153-175 | the header is accepted exactly with its magic and version, and reading goes on behind it |
| Recording.HeaderMeans | src/recording.c:153-175 | a file has a header exactly with 64 bytes, the magic and version 1, and its fields are read from their places |
| Recording.HeaderRewritten | src/recording.c:22-32 | reading a header and writing it gives its first 32 bytes back |
| Recording.FrameLayout | src/recording.c:33-40 | the 16 bytes of a frame header, each field at its place, and the data behind them |
| Recording.FrameMeans | src/recording.c:180-208 | the end, the errors and the frame read, byte by byte |
| Recording.Reader.ReadFrame | src/recording.c:180-208 | the code, the frame and the new file position in each of the end, error and success cases |
| Recording.CutRecording | src/recording.c:153-208 | a recording cut anywhere after its header gives back exactly the frames wholly before the cut, then end-of-file if the cut is between frames and an error otherwise |
| Recording.RecordingRoundTrip | src/recording.c:89-208 | a complete recording reads back as its header and frames with timestamps and flags, then end-of-file |

## Left out

- VideoRuns.ReassemblySafety: fewer than 2^32 frames of one sender's run, because frame ids wrap and restart; repeats are VideoRepeats and VideoSegments, timeouts VideoBounds and VideoRepeats.
- VideoOverTcp.VideoInOrder: memory is granted whenever the buffer grows; the stream carries only video packets.
- VideoSegments.RunRightIff: no timeout between the arrivals, and memory is granted whenever the buffer grows.
- VideoReceiver.Receiver.OnVideo: C gives a copy outside the buffer no meaning; the model reports it and stops there.
- Nlms.ResidualBound: rounding of `float` is not modelled, because the claims are about exact arithmetic.
- EchoCanceller.Aec.Process: the output may be the microphone buffer, as src/audio/echo_cancel.h:63 allows, but not the reference buffer.
- EchoCanceller.Aec.constructor: the int product of filter length and sample rate is unbounded here.
- ConfigText.SignedRoundTrip: `atoi` beyond the int range is undefined in C and given its mathematical value here.
- Config.SettingsStore.LoadIni: the file holds no NUL characters and exists; a missing file gives the defaults.
- AbrLadder.Ladder.Select: qsort is not modelled; its result, any ascending permutation of the levels, is an argument of the constructor.
- Latency.NearestRank: qsort is any ascending permutation, and the percentile an exact real.
- Handshake.HandshakeRoundTrip: identities contain no NUL, as C strings.
- PeerTable.Table.AddByCode: parsing the code into key and hostname is an argument, and a code longer than its buffer is not clipped.
- Recording.Recorder.WriteFrame: failing and partial writes to the file.
- Sockets, DNS, clocks, allocation and devices are arguments of the operations.
- Cryptography is an abstract pair of functions where decryption under the same key and nonce undoes encryption and the ciphertext is 16 bytes longer; nothing is claimed about nonces across sessions.
- Peers inserted by discovery, by manual entry or by broadcast, and the expiry of the discovery cache.
- The event ring, the analytics event codec, the bitrate statistics, RGBA to NV12, gain control and noise filters: easier members of the same kinds.
- Audio packets, input events, and control messages that only set encoder parameters.
- Printing of the latency report, logging, command line, user interfaces and backends.
