# NOINTMESSAGE in Dafny

A Dafny model of the message and photo tunnels of the NOINTMESSAGE project.
In this project, ESP32 boards with SX1262 radios carry text and photos
over LoRa, and phone apps reach the boards over BLE. The model covers:

- **Photo tunnel.** The sender cuts a photo into 200-byte chunks. Each
  chunk travels in a frame that starts with a packed 13-byte header
  (type, photoId, chunkIndex, totalChunks, dataLen, crc; little-endian)
  and is protected by a CRC-16/MODBUS of its payload. The sender retries
  each chunk up to three times, waiting up to 2000 ms for an ACK or a NACK.
  START and END frames bracket the transfer; PING is a bare header. The
  receiver keeps the photo in a byte buffer and a per-chunk mask. It
  NACKs a frame whose length or CRC is wrong, ACKs duplicates, stores
  fresh chunks, and on END, once every chunk is in, hands the photo to
  the phone in 509-byte BLE pieces. A reception left idle for more than
  10 s times out.
- **Text tunnels.** Every sketch shares the one-way and bidirectional
  senders' serial line editor and the 6 + n byte MessagePacket
  (time stamp, messageLen, text). The M1 station sends the phone a line
  "[M2→M1 hh:mm:ss] text". The transceiver uses its own fixed 188-byte
  packet, with its own from, to and id fields.
- **Queue sketches.** The BLE demo and the complete tunnel keep ring
  queues, and the complete tunnel adds pairing by HELLO_/PAIRED_ messages.
- **The two phone apps' BLE services**, in the Mob-app and the
  FreshLoRaApp:
  - which scanned names count as stations, and which station type each
    name gets;
  - how a received line is decoded and attributed;
  - the guards on sending.

The firmware's `millis()`, radio results, BLE writes and packet arrivals
are parameters of the model. Time is `u32`, and elapsed time wraps
modulo 2^32 as `millis() - start` does.

The CRC is CRC-16/MODBUS as defined in the MODBUS over Serial Line
Specification V1.02: initial value 0xFFFF, reflected polynomial 0xA001,
and check value 0x4B37 for "123456789".

The main results:

- **Lossless transfer.** `PhotoTransfer.LosslessTransfer` covers a run
  of the receiver's loop passes, each with its own millis() value and its
  timeout check, that hands the receiver every frame of a run the sender
  reports as successful. If no timeout check finds more than 10 s since
  the START or the last new chunk, the receiver's buffer is the photo and
  the phone receives exactly its bytes. `PhotoTransfer.TimeoutCloses`
  shows that a longer silence does end the reception.
- **Single-byte errors.** `Crc16.SingleByteErrorDetected` proves that
  changing any one byte of a payload always changes the CRC.
- **Round trips.** Photo headers and transceiver packets come back
  unchanged after encoding and decoding. A text frame gives back its text
  up to the first NUL, with the length cut to 16 bits as `uint16_t len =
  strlen(text)` does. The transceiver's text comes back only with the
  corrected read inside its 180-byte field: as written, a 180-byte text
  has no NUL and is read on past the packet (see "## Findings").
- **Receiver states.** The receiver's reaction to each kind of frame is
  proved as its own lemma.

## Model

| member | source | states |
|---|---|---|
| Bytes.Wrap16 | photo_tunnel_receiver.cpp:224 | the uint16_t conversion: the value itself when in range, else congruent modulo 2^16 |
| Bytes.Wrap32 | m1_station.cpp:286 | the uint32_t conversion: the value itself when in range, else congruent modulo 2^32 |
| Bytes.Elapsed | photo_tunnel_sender.cpp:81 | `millis() - start` in uint32_t: the difference, or the difference plus 2^32 after a wrap |
| Bytes.Le16 | photo_tunnel_sender.cpp:40-47 | a uint16_t field is two bytes that read back as the value |
| Bytes.Le32 | photo_tunnel_sender.cpp:40-47 | a uint32_t field is four bytes that read back as the value |
| Bytes.Le16OfRead | photo_tunnel_sender.cpp:40-47 | reading two bytes and writing them back gives the same bytes |
| Bytes.Le32OfRead | photo_tunnel_sender.cpp:40-47 | reading four bytes and writing them back gives the same bytes |
| Bytes.CStrLen | m1_station.cpp:172 | strlen: the index of the first NUL, or the whole length when there is none |
| Bytes.CStr | m1_station.cpp:186 | the C string: the bytes up to the first NUL, with no NUL inside |
| Bytes.CStrOfNulFree | m1_station.cpp:172 | a NUL-free text is its own C string |
| Bytes.Strncpy | m1_station.cpp:181 | strncpy into n bytes: the C string padded with NULs, or the first n bytes when the text is that long |
| Crc16.CalculateCrc16 | photo_tunnel_receiver.cpp:80-93 | the byte loop with its 8 shift steps computes the CRC of the given slice |
| Crc16.CrcFromConcat | photo_tunnel_sender.cpp:62-75 | feeding a + b is feeding a, then b |
| Crc16.CrcFromSnoc | photo_tunnel_sender.cpp:64-73 | one more byte is one more UpdateByte |
| Crc16.CrcFromInjective | photo_tunnel_sender.cpp:64-73 | two different registers stay different after any bytes |
| Crc16.UpdateByteInjective | photo_tunnel_sender.cpp:65-72 | two different bytes fed into the same register give different registers |
| Crc16.DifferentByteDetected | photo_tunnel_sender.cpp:64-73 | two different bytes at one position still differ after any common rest |
| Crc16.SingleByteErrorRegister | photo_tunnel_sender.cpp:64-73 | payloads differing at exactly one byte end in different registers |
| Crc16.SingleByteErrorDetected | photo_tunnel_receiver.cpp:233-238 | payloads differing at exactly one byte have different CRCs, so such a chunk is always NACKed |
| Crc16.CrcEmpty | photo_tunnel_sender.cpp:63 | the CRC of no bytes is the initial 0xFFFF |
| Crc16.CheckValue | photo_tunnel_sender.cpp:62-75 | the CRC of "123456789" is 0x4B37, the MODBUS check value |
| Crc16Bits.ByteBitsDistinct | photo_tunnel_sender.cpp:65 | widening a byte into the register loses nothing |
| Crc16Bits.ShiftStepInjective | photo_tunnel_sender.cpp:67-71 | one shift step, with or without the 0xA001 XOR, is injective |
| Crc16Bits.ShiftsInjective | photo_tunnel_sender.cpp:66-72 | any number of shift steps is injective |
| Crc16Bits.FeedInjective | photo_tunnel_sender.cpp:65-72 | XOR-ing in different values and shifting 8 times gives different registers |
| Crc16Bits.FeedRegisterInjective | photo_tunnel_sender.cpp:65-72 | the same byte fed into different registers gives different registers |
| Crc16Value.RegisterValueDistinct | photo_tunnel_sender.cpp:74 | different 16-bit registers return different uint16_t values |
| PhotoFrame.Serialize | photo_tunnel_sender.cpp:40-47 | the packed header: 13 bytes, type at 0, photoId LE at 1, chunkIndex at 5, totalChunks at 7, dataLen at 9, crc at 11 |
| PhotoFrame.Parse | photo_tunnel_receiver.cpp:399 | reading the header from a frame of at least 13 bytes takes each field from its offset |
| PhotoFrame.ParseSerialize | photo_tunnel_receiver.cpp:399 | a serialised header parses back to itself, whatever payload follows it |
| PhotoFrame.SerializeParse | photo_tunnel_sender.cpp:92 | parsing and serialising again gives the first 13 bytes back |
| PhotoFrame.SerializeInjective | photo_tunnel_sender.cpp:40-47 | different headers have different bytes |
| PhotoFrame.TotalChunksIsCeiling | photo_tunnel_sender.cpp:170 | `(size + 199) / 200` is ceil(size / 200): it covers the photo with no empty last chunk, and is 0 only for an empty photo |
| PhotoFrame.ChunkLen | photo_tunnel_sender.cpp:122-123 | a chunk is at most 200 bytes; it is non-empty and stays in the photo when its offset is; it is full unless it is the last chunk |
| PhotoFrame.ChunkInside | photo_tunnel_sender.cpp:122-123 | each chunk below the count lies inside the photo; all but the last are full, and the last ends at the photo's end |
| PhotoFrame.ChunkOfByte | photo_tunnel_receiver.cpp:248 | every byte of the photo lies in chunk offset / 200, which is below the count |
| PhotoFrame.ChunkBytes | photo_tunnel_sender.cpp:137 | the memcpy'd chunk is the photo's slice at offset i * 200 of ChunkLen bytes, non-empty |
| PhotoFrame.ChunksPrefix | photo_tunnel_sender.cpp:202-222 | the first n chunks put together are the photo up to chunk n |
| PhotoFrame.ChunksCover | photo_tunnel_sender.cpp:202-222 | all chunks put together are the photo |
| PhotoFrame.DataHeader | photo_tunnel_sender.cpp:129-134 | a DATA header carries the chunk's index, the chunk count, its length and the CRC of its bytes |
| PhotoFrame.StartHeader | photo_tunnel_sender.cpp:180-187 | START: chunkIndex 0, the chunk count, the size cut to 16 bits, the CRC of the first min(size, 32) bytes |
| PhotoFrame.EndCrcUnderflow | photo_tunnel_sender.cpp:232 | for every photo under 32 bytes, the END CRC as written starts 32 - size bytes before the photo, while the corrected END header covers the whole photo |
| PhotoFrame.EndCrcStart | photo_tunnel_sender.cpp:232 | the corrected start: the last min(size, 32) bytes, the same as written for photos of 32 bytes or more |
| PhotoFrame.EndHeader | photo_tunnel_sender.cpp:226-233 | END: chunkIndex = totalChunks = the count, the size cut to 16 bits, the CRC of the last min(size, 32) bytes |
| PhotoFrame.PingHeader | photo_tunnel_sender.cpp:330-337 | PING: photoId = now, every other field 0 |
| PhotoFrame.ReplyHeader | photo_tunnel_receiver.cpp:150-175 | ACK or NACK for a chunk with the reception's photoId, other fields 0 |
| PhotoSender.WaitForAck | photo_tunnel_sender.cpp:78-110 | the loop over the arrivals returns true exactly when the traffic's outcome is Acked; each packet is judged by the window test made before the blocking receive that returned it, so an answer whose receive began inside the 2000 ms still counts |
| PhotoSender.OutcomeAt | photo_tunnel_sender.cpp:94-100 | the first ACK or NACK for the chunk inside the window decides: ACK => Acked, NACK => Nacked |
| PhotoSender.AckedHasWitness | photo_tunnel_sender.cpp:94-96 | Acked only if an ACK for the chunk is the first answer inside the window |
| PhotoSender.NoAnswerTimesOut | photo_tunnel_sender.cpp:108-109 | with no ACK or NACK for the chunk, the wait times out |
| PhotoSender.ForeignAckAccepted | photo_tunnel_sender.cpp:94 | an ACK carrying any photoId is accepted: only type and chunkIndex are compared |
| PhotoSender.DataFrame | photo_tunnel_sender.cpp:126-140 | the DATA frame is 13 + ChunkLen bytes: the DATA header followed by the chunk |
| PhotoSender.DataFrameFields | photo_tunnel_sender.cpp:129-131 | a DATA frame for chunk i has type DATA and index i |
| PhotoSender.FillPacket | photo_tunnel_sender.cpp:137 | the packet array holds the header followed by the copied bytes |
| PhotoSender.PrepareDataPacket | photo_tunnel_sender.cpp:122-137 | the 213-byte packet array's first len bytes are the DATA frame |
| PhotoSender.RetryFromFacts | photo_tunnel_sender.cpp:116-159 | the retry loop stops at the first success; at most three tries; a failure means all three failed |
| PhotoSender.RetryFacts | photo_tunnel_sender.cpp:116-159 | 1 to 3 tries; delivered iff some try up to the third succeeded; the last try made is the success |
| PhotoSender.FailedTransmissionIgnoresTraffic | photo_tunnel_sender.cpp:142-153 | a try whose transmit failed never succeeds, whatever arrives |
| PhotoSender.Repeat | photo_tunnel_sender.cpp:116-156 | n copies of the same frame |
| PhotoSender.SendChunkWithRetry | photo_tunnel_sender.cpp:113-160 | the result is the retry verdict; the sent frames are the chunk's DATA frame once per try made |
| PhotoSender.ChunkIndexInside | photo_tunnel_sender.cpp:202 | any index below the chunk count starts inside the photo, even when the count wrapped |
| PhotoSender.ChunkResults | photo_tunnel_sender.cpp:202-222 | one verdict and frame list per chunk, as sendChunkWithRetry makes them |
| PhotoSender.ChunkResultAt | photo_tunnel_sender.cpp:205 | chunk i's result is sendChunkWithRetry's verdict and frames for chunk i |
| PhotoSender.ChunksStep | photo_tunnel_sender.cpp:202-222 | a failed chunk aborts with the frames so far; a delivered one goes on to the next |
| PhotoSender.SendChunks | photo_tunnel_sender.cpp:198-222 | the chunk loop's result and frames are ChunksFrom of the per-chunk results |
| PhotoSender.SendPhoto | photo_tunnel_sender.cpp:163-252 | the verdict and the transmitted frames are PhotoRun of the inputs |
| PhotoSender.PhotoRun | photo_tunnel_sender.cpp:163-252 | definition of sendPhoto's verdict and frames; properties in PhotoSuccess, PhotoAbort, EndCrcReadsBeforePhoto and PhotoTransfer.LosslessTransfer |
| PhotoSender.EmptyPhotoSendsNothing | photo_tunnel_sender.cpp:164-167 | an empty photo fails with nothing sent |
| PhotoSender.StartFailureStops | photo_tunnel_sender.cpp:190-194 | a failed START transmission fails after that one frame |
| PhotoSender.ChunkResultsFields | photo_tunnel_sender.cpp:129-131 | the frames for chunk i are DATA frames for index i |
| PhotoSender.ConcatDataFrames | photo_tunnel_sender.cpp:202-222 | frames for chunk i followed by frames for later chunks stay in index order |
| PhotoSender.ChunksFromFrames | photo_tunnel_sender.cpp:202-222 | the chunk loop sends only DATA frames, in non-decreasing index order |
| PhotoSender.ChunksFromOk | photo_tunnel_sender.cpp:202-222 | the chunk loop succeeds iff every chunk is delivered |
| PhotoSender.FirstFailureStops | photo_tunnel_sender.cpp:218-221 | after the first undelivered chunk k nothing else is sent: failure, with frames only for chunks up to k |
| PhotoSender.PhotoSuccess | photo_tunnel_sender.cpp:163-252 | success iff START and END went out and every chunk was delivered; then START first, END last, DATA frames in index order between |
| PhotoSender.EndCrcReadsBeforePhoto | photo_tunnel_sender.cpp:226-235 | for every photo under 32 bytes whose chunks all get through, sendPhoto's last frame is END; as written its CRC read starts 32 - size bytes before the photo, and the model's END carries the CRC of the whole photo |
| PhotoSender.PhotoAbort | photo_tunnel_sender.cpp:218-221 | when chunk k is the first lost one, the run fails after START and DATA frames for chunks up to k, and END is never sent |
| PhotoRxSpec.Initial | photo_tunnel_receiver.cpp:56-66 | the global starts inactive, with no buffer, no mask and no chunks received |
| PhotoRxSpec.CountTrueSet | photo_tunnel_receiver.cpp:250-251 | marking an unmarked chunk raises the count by one |
| PhotoRxSpec.CountTrueBelow | photo_tunnel_receiver.cpp:251 | while a chunk is unmarked the count is below the chunk total, so receivedChunks++ cannot wrap |
| PhotoRxSpec.CountTrueNone | photo_tunnel_receiver.cpp:198 | a cleared mask counts 0 |
| PhotoRxSpec.Started | photo_tunnel_receiver.cpp:178-199 | startPhotoReception: active, the given id, counts and size, no chunk marked, both times now |
| PhotoRxSpec.DataVerdict | photo_tunnel_receiver.cpp:217-251 | each verdict holds iff its case does: too short, length mismatch, CRC mismatch, out of range; Duplicate or Fresh otherwise, by the chunk's mark |
| PhotoRxSpec.Overwrite | photo_tunnel_receiver.cpp:249 | memcpy into the buffer: the payload at the offset, every other byte unchanged |
| PhotoRxSpec.AfterData | photo_tunnel_receiver.cpp:217-252 | the state after a DATA frame stays consistent and keeps active and photoId |
| PhotoRxSpec.Receive | photo_tunnel_receiver.cpp:388-431 | the state after any received frame is consistent, and receivedChunks never exceeds totalChunks |
| PhotoRxSpec.Classify | photo_tunnel_receiver.cpp:395-430 | definition of loop's dispatch; properties in IgnoredFrame, StartAlwaysRestarts, EndCompletes and Receive |
| PhotoRxSpec.Reply | photo_tunnel_receiver.cpp:226-245 | definition: the ACK or NACK a frame draws; properties in RejectedChunk, FreshChunk, DuplicateIdempotent and IgnoredFrame |
| PhotoRxSpec.Notes | photo_tunnel_receiver.cpp:205-310 | definition of what a connected phone is told per frame; properties in EndDeliversBuffer and PhotoTransfer.LosslessTransfer |
| PhotoRxSpec.AfterTimeout | photo_tunnel_receiver.cpp:440-443 | the reception ends iff it was idle more than 10000 ms (wrapping elapsed time) |
| PhotoRxSpec.BlePiecesJoin | photo_tunnel_receiver.cpp:288-302 | the 509-byte BLE pieces put back together are the buffer; there are ceil(size / 509) of them, each 1 to 509 bytes |
| PhotoRxSpec.BlePiecesFirst | photo_tunnel_receiver.cpp:293-298 | the first piece is min(509, size) bytes and the rest are the pieces of what follows it |
| PhotoRxSpec.BlePiecesStep | photo_tunnel_receiver.cpp:292-302 | one pass of the BLE loop keeps the pieces so far plus the pieces of the rest equal to all pieces |
| PhotoRxSpec.PieceNotes | photo_tunnel_receiver.cpp:295-296 | one PhotoPiece notification per piece, in order |
| PhotoRxSpec.PhotoBytesOfPieces | photo_tunnel_receiver.cpp:292-310 | the photo bytes of the piece notifications followed by COMPLETE are the pieces put together |
| PhotoRxSpec.EndDeliversBuffer | photo_tunnel_receiver.cpp:413-419 | a completing END gives a connected phone the whole buffer, then COMPLETE with the size |
| PhotoRxSpec.IgnoredFrame | photo_tunnel_receiver.cpp:395-430 | empty, oversized or short frames, PING, and DATA/END for another photo or no reception change nothing and get no reply |
| PhotoRxSpec.StartAlwaysRestarts | photo_tunnel_receiver.cpp:403-405 | a START frame always restarts the reception from its fields, with no reply |
| PhotoRxSpec.RejectedChunk | photo_tunnel_receiver.cpp:226-238 | a chunk with a wrong length, a wrong CRC or an out-of-range index is NACKed and changes nothing |
| PhotoRxSpec.FreshChunk | photo_tunnel_receiver.cpp:247-255 | a fresh chunk lands at its offset and nowhere else, is marked and counted, sets lastChunkTime and is ACKed |
| PhotoRxSpec.DuplicateIdempotent | photo_tunnel_receiver.cpp:240-245 | the same chunk again is a duplicate: same ACK, no change |
| PhotoRxSpec.EndCompletes | photo_tunnel_receiver.cpp:413-424 | END for the active photo ends the reception iff every chunk was counted; otherwise nothing changes |
| PhotoRxSpec.TimeoutKeepsBuffer | photo_tunnel_receiver.cpp:440-443 | a timeout only clears active |
| PhotoRxSpec.AllMarked | photo_tunnel_receiver.cpp:418 | a count equal to the mask length means every chunk is marked |
| PhotoRxSpec.CompleteMeansAllChunks | photo_tunnel_receiver.cpp:418 | receivedChunks == totalChunks means every chunk arrived |
| PhotoRxSpec.StrayChunk | photo_tunnel_receiver.cpp:217-251 | a 13-byte DATA frame for chunk 5 with an empty payload (CRC 0xFFFF) |
| PhotoRxSpec.StrayChunkPassesFirmware | photo_tunnel_receiver.cpp:226-241 | as written, that frame passes the length and CRC tests yet indexes past the mask and the buffer; the model calls it OutOfRange |
| PhotoReceiver.Reception.constructor | photo_tunnel_receiver.cpp:56-66 | the initial photoRx |
| PhotoReceiver.Reception.StartPhotoReception | photo_tunnel_receiver.cpp:178-199 | new buffer and mask; the state is Started |
| PhotoReceiver.Reception.ProcessDataChunk | photo_tunnel_receiver.cpp:217-276 | new state AfterData, reply DataReply, a progress note for a fresh chunk to a connected phone |
| PhotoReceiver.Reception.StoreChunk | photo_tunnel_receiver.cpp:247-252 | copy, mark, count and stamp a fresh chunk: the state is AfterData |
| PhotoReceiver.Reception.CopyChunk | photo_tunnel_receiver.cpp:249 | the copy loop leaves the buffer as Overwrite of the old buffer |
| PhotoReceiver.Reception.SendPhotoToPhone | photo_tunnel_receiver.cpp:279-313 | nothing without a phone; otherwise the pieces of the buffer, then COMPLETE |
| PhotoReceiver.Reception.CutPieces | photo_tunnel_receiver.cpp:288-302 | the BLE loop yields exactly BlePieces of the buffer |
| PhotoReceiver.Reception.FinalizePhotoReception | photo_tunnel_receiver.cpp:316-333 | the photo to a connected phone, then active cleared; the buffer stays |
| PhotoReceiver.Reception.HandlePacket | photo_tunnel_receiver.cpp:388-431 | the new state, the reply and the notes are Receive, Reply and Notes of the old state |
| PhotoReceiver.Reception.CheckTimeout | photo_tunnel_receiver.cpp:440-443 | the new state is AfterTimeout of the old |
| PhotoTransfer.ReceiveAll | photo_tunnel_receiver.cpp:388-431 | frames received one after another keep the state consistent |
| PhotoTransfer.ReceiveAllConcat | photo_tunnel_receiver.cpp:388-431 | receiving a + b is receiving a and then b, for state and notes |
| PhotoTransfer.PhotoBytesConcat | photo_tunnel_receiver.cpp:295-296 | the photo bytes of two note lists put together are theirs put together |
| PhotoTransfer.StartFrameHolds | photo_tunnel_sender.cpp:180-190 | the sender's START frame sets up the receiver for that photo, with no chunk marked |
| PhotoTransfer.ChunksApart | photo_tunnel_receiver.cpp:248 | different chunks cover disjoint byte ranges |
| PhotoTransfer.OtherChunkInPlace | photo_tunnel_receiver.cpp:249 | storing one chunk leaves the other chunks' bytes in place |
| PhotoTransfer.DataFrameHolds | photo_tunnel_sender.cpp:126-140 | the sender's DATA frame for chunk j, received, keeps the photo's chunks in place and marks j |
| PhotoTransfer.RepeatHolds | photo_tunnel_sender.cpp:116-156 | any number of copies of that frame (the retries) keep this and mark j at least once |
| PhotoTransfer.ChunkResultsFor | photo_tunnel_sender.cpp:202-222 | each chunk's frames are its DATA frame, and a delivered chunk was sent at least once |
| PhotoTransfer.MarksCombine | photo_tunnel_receiver.cpp:250 | marks are never lost along a run of frames |
| PhotoTransfer.ChunkPhaseHolds | photo_tunnel_sender.cpp:202-222 | the frames of a successful chunk loop leave every chunk marked and in place |
| PhotoTransfer.CountAll | photo_tunnel_receiver.cpp:418 | an all-marked mask counts its length |
| PhotoTransfer.BufferIsPhoto | photo_tunnel_receiver.cpp:247-250 | with every chunk marked and in place, the buffer is the photo |
| PhotoTransfer.StartAndChunks | photo_tunnel_sender.cpp:179-222 | START and the successful chunk loop leave the buffer equal to the photo and all chunks counted |
| PhotoTransfer.EndFrameCompletes | photo_tunnel_sender.cpp:226-235 | the END frame then completes: the reception ends and a connected phone gets the buffer |
| PhotoTransfer.LosslessAtOneInstant | photo_tunnel_sender.cpp:163-252 | every frame of a successful run, received in order at one instant: the buffer is the photo and the phone gets exactly its bytes |
| PhotoTransfer.AfterPass | photo_tunnel_receiver.cpp:376-443 | one pass of loop, the frame if any and then the 10 s timeout check, keeps the state consistent |
| PhotoTransfer.RunPasses | photo_tunnel_receiver.cpp:376-443 | any run of loop passes keeps the state consistent |
| PhotoTransfer.ReceiveIgnoresTime | photo_tunnel_receiver.cpp:193-252 | millis() only stamps startTime and lastChunkTime: states equal but for those, given one frame at any two times, stay so and give the same phone notifications |
| PhotoTransfer.PassesAsFrames | photo_tunnel_receiver.cpp:376-443 | when no timeout check fires, the passes end where their frames taken at one instant do, time stamps aside, with the same notifications |
| PhotoTransfer.LosslessTransfer | photo_tunnel_receiver.cpp:376-443 | passes handing over every frame of a successful sendPhoto run (photo_tunnel_sender.cpp:163-252), with no timeout check finding 10 s without a START or new chunk: the reception ends closed, the buffer is the photo and the phone gets exactly its bytes |
| PhotoTransfer.TimeoutCloses | photo_tunnel_receiver.cpp:439-443 | a pass more than 10 s after the last START or new chunk closes an active reception |
| RingQueue.Wrap | complete_tunnel.cpp:102 | `(a + 1) % QUEUE_SIZE` for a below two turns of the ring |
| RingQueue.WrapIsMod | complete_tunnel.cpp:102 | Wrap is the C remainder |
| RingQueue.Ring.constructor | complete_tunnel.cpp:48-52 | an empty ring with both indices 0 |
| RingQueue.Ring.Full | complete_tunnel.cpp:102-103 | full iff it holds capacity - 1 messages |
| RingQueue.Ring.Add | complete_tunnel.cpp:101-113 | a full ring is unchanged; otherwise the message is appended at head and head advances |
| RingQueue.Ring.Take | complete_tunnel.cpp:129-136 | empty: false and unchanged; otherwise the oldest message, removed, and tail advances |
| RingQueue.Ring.Count | ble_demo.cpp:186 | `(head - tail + QUEUE_SIZE) % QUEUE_SIZE` is the number queued, below the capacity |
| CompleteTunnel.LoRaSend | complete_tunnel.cpp:207-216 | nothing without the radio; otherwise one radio message from this station, to BROADCAST for PAIR and to the partner otherwise |
| CompleteTunnel.Tunnel.constructor | complete_tunnel.cpp:41-52 | unpaired, no phone, no partner, both queues empty |
| CompleteTunnel.Tunnel.SetConnected | complete_tunnel.cpp:56-77 | the connection flag |
| CompleteTunnel.Tunnel.OnWrite | complete_tunnel.cpp:81-97 | a write of 1 to 200 bytes is queued for the radio unless the queue is full, and confirmed to a connected phone |
| CompleteTunnel.Tunnel.AddToBleLoraQueue | complete_tunnel.cpp:101-113 | the message from this station to the partner, unless the queue is full |
| CompleteTunnel.Tunnel.AddToLoraBleQueue | complete_tunnel.cpp:115-127 | the message from its sender to this station, unless the queue is full |
| CompleteTunnel.Tunnel.StartPairing | complete_tunnel.cpp:281-289 | forget the partner, restart the clock, broadcast HELLO_ with this station's id |
| CompleteTunnel.Tunnel.HandlePairingMessage | complete_tunnel.cpp:291-315 | an unpaired station pairs with the first other station that says HELLO_, answers PAIRED_ and tells the phone; anything else changes nothing |
| CompleteTunnel.Tunnel.HandleLoRaReceive | complete_tunnel.cpp:239-269 | PAIR goes to pairing; DATA from the partner is queued for the phone; a pairing is never lost |
| CompleteTunnel.Tunnel.ForwardToRadio | complete_tunnel.cpp:385-388 | the oldest queued message is taken and sent to the partner when paired |
| CompleteTunnel.Tunnel.CheckPairingTimeout | complete_tunnel.cpp:391-394 | still unpaired more than 30000 ms after the last HELLO_, pairing starts again |
| CompleteTunnel.Tunnel.ForwardToPhone | complete_tunnel.cpp:398-404 | the oldest message from the radio is taken and shown to a connected phone |
| CompleteTunnel.Tunnel.Loop | complete_tunnel.cpp:379-404 | the pairing globals, both queues' contents and every radio and phone output of the pass are exactly LoopPass of the globals before it; a pairing is never lost |
| CompleteTunnel.LoopPass | complete_tunnel.cpp:379-404 | definition of one pass on the globals, from OnPacket, ToRadioStep, TimeoutStep and ToPhoneStep; properties in PassKeepsPartner, QueuedTextSent, UnpairedTextLost and PartnerDataShown |
| CompleteTunnel.PassKeepsPartner | complete_tunnel.cpp:291-315 | a paired station is still paired with the same partner after any pass |
| CompleteTunnel.QueuedTextSent | complete_tunnel.cpp:384-388 | paired with the radio up, the oldest text from the phone leaves its queue and goes to the partner as DATA in this pass, whatever is received |
| CompleteTunnel.UnpairedTextLost | complete_tunnel.cpp:384-388 | unpaired, the oldest text from the phone leaves its queue and no DATA goes out: the text is lost |
| CompleteTunnel.PartnerDataShown | complete_tunnel.cpp:264-266 | DATA from the partner reaches a connected phone in the same pass when nothing else waits for the phone |
| BleDemo.Demo.constructor | ble_demo.cpp:19-26 | no phone, empty queue |
| BleDemo.Demo.SetConnected | ble_demo.cpp:29-46 | the connection flag |
| BleDemo.Demo.OnWrite | ble_demo.cpp:50-66 | a write of 1 to 200 bytes is queued unless full, and confirmed to a connected phone |
| BleDemo.Demo.AddToQueue | ble_demo.cpp:70-80 | stamped and appended unless the ring is full |
| BleDemo.Demo.ProcessMessages | ble_demo.cpp:101-111 | the oldest message is taken and relayed to a connected phone |
| BleDemo.Demo.Pending | ble_demo.cpp:184-186 | the queued count, at most 4 |
| Text.CString | complete_tunnel.cpp:84 | `String(value.c_str())`: the prefix before the first NUL |
| Text.CStringOfNulFree | complete_tunnel.cpp:84 | a NUL-free value is kept whole |
| Text.ContainsAt | FreshLoRaApp/src/services/BLEService.ts:140-146 | `includes` holds iff the pattern occurs at some position |
| Text.ContainsPrefix | FreshLoRaApp/src/services/BLEService.ts:147-148 | a string that starts with p includes p |
| Text.TrimStart | FreshLoRaApp/src/services/BLEService.ts:283 | the suffix after the leading white space |
| Text.TrimEnd | FreshLoRaApp/src/services/BLEService.ts:283 | the prefix before the trailing white space |
| Text.TrimEmpty | Mob-app/src/services/BLEService.ts:209 | `trim()` is empty iff every character is white space |
| Text.TrimShape | FreshLoRaApp/src/services/BLEService.ts:321 | trimmed text has no white space at either end, occurs in the original, and trimming again changes nothing |
| Text.Trim | FreshLoRaApp/src/services/BLEService.ts:321 | definition of String.prototype.trim; properties in TrimShape |
| Text.Lower | FreshLoRaApp/src/services/BLEService.ts:131 | `toLowerCase` on ASCII letters, same length |
| Text.ContainsLower | FreshLoRaApp/src/services/BLEService.ts:140-146 | what a name includes, its lower-case form includes lower-cased |
| LineEditor.Edit | bidirectional_sender.cpp:196-218 | newline sends a non-empty buffer and clears it; backspace drops the last character; a printable one is appended below the limit; else unchanged |
| LineEditor.EditKeepsLine | bidirectional_sender.cpp:212-216 | the buffer stays printable and within the limit, and what is sent is a non-empty line |
| LineEditor.EditAllSnoc | message_tunnel_sender.cpp:129-150 | one more character is one more Edit |
| LineEditor.EditAllKeepsLine | message_tunnel_sender.cpp:129-150 | over any input the buffer and every sent line are non-empty printable lines within the limit |
| LineEditor.EditAll | message_tunnel_sender.cpp:129-150 | definition of the editor over a run of input; properties in EditAllKeepsLine, EditAllSendsPerNewline and TypedLineSent |
| LineEditor.EditAllSendsPerNewline | message_tunnel_sender.cpp:132-137 | no more lines are sent than newlines typed |
| LineEditor.TypedLineSent | message_tunnel_sender.cpp:129-150 | a typed line then CR sends exactly that line and leaves the buffer empty |
| LineEditor.TypedPrefix | message_tunnel_sender.cpp:144-148 | typing printable characters builds the buffer up with nothing sent |
| TextFrame.SendLen | m1_station.cpp:172 | `uint16_t len = strlen(text)`: the C string length, cut to 16 bits |
| TextFrame.EncodeFrame | m1_station.cpp:172-193 | a frame iff 0 < len <= 200: the time stamp, messageLen = len and the text's len bytes, 6 + len bytes, no NUL |
| TextFrame.Window | m1_station.cpp:272-276 | readData leaves the received bytes at the front of the old buffer |
| TextFrame.Decode | m1_station.cpp:268-299 | a delivery iff the checks pass; its text is the C string of the messageLen bytes after the fields |
| TextFrame.Accepted | m1_station.cpp:276-282 | definition of the receive checks; properties in Decode and RoundTrip |
| TextFrame.RoundTrip | message_tunnel_sender.cpp:37-75 | a sent frame decodes to the sent text and time stamp, whatever the buffer held |
| TextFrame.StaleBytesReachText | m1_station.cpp:278-284 | a 6-byte packet claiming 5 text bytes is accepted and its text is stale buffer bytes: different earlier contents, different texts |
| TextFrame.StaleText | m1_station.cpp:278-284 | that packet over a buffer filled with c has text c c c c c |
| TextFrame.TerminatorIndex | m1_station.cpp:284 | the terminator is written at buffer byte 6 + messageLen |
| TextFrame.TerminatorOverrun | m1_station.cpp:282-284 | a 200-byte message passes the checks and its terminator lands at byte 206, past the 206-byte buffer |
| TextFrame.CStrAtNul | m1_station.cpp:293 | a NUL ends the printed text |
| TextFrame.Transmitted | message_tunnel_sender.cpp:37-75 | the shared sendMessage of the text sketches: a frame iff the radio is up and 0 < strlen <= 200, and then it is EncodeFrame's |
| TextFrame.SentFrames | message_tunnel_sender.cpp:129-150 | nothing without the radio; at most one frame per line |
| TextFrame.SentFramesSnoc | message_tunnel_sender.cpp:132-137 | one more line adds its frame when it is accepted |
| TextFrame.EditorLinesAllSent | message_tunnel_sender.cpp:129-150 | every line the editor sends is framed in full: 6 + n bytes with the line as text |
| TextFrame.PrintableText | message_tunnel_sender.cpp:135 | an editor line is its own C string |
| TextFrame.FrameReceiver.constructor | m1_station.cpp:37 | no messages counted yet |
| TextFrame.FrameReceiver.Receive | m1_station.cpp:275-286 | the delivery is Decode of the packet, and the count goes up by one (mod 2^32) exactly when there is one |
| MessageTunnelSender.Sender.constructor | message_tunnel_sender.cpp:77-119 | the radio flag, empty input |
| MessageTunnelSender.Sender.SendMessage | message_tunnel_sender.cpp:37-75 | nothing without the radio; otherwise EncodeFrame, 1 to 200 text bytes |
| MessageTunnelSender.Sender.Key | message_tunnel_sender.cpp:130-149 | one character: the editor's new buffer; the frame of a finished line |
| MessageTunnelSender.Sender.ReadSerial | message_tunnel_sender.cpp:129-150 | the buffer after the input, and the frames of the lines it finished |
| MessageTunnelSender.Sender.Loop | message_tunnel_sender.cpp:116-151 | the buffer stays a line and is what the editor leaves; the frames are exactly those of the finished lines, one per line with the radio up |
| BidirectionalSender.Sender.constructor | bidirectional_sender.cpp:83-131 | the radio flag, empty input, no messages |
| BidirectionalSender.Sender.SendMessage | bidirectional_sender.cpp:39-81 | nothing without the radio; otherwise EncodeFrame |
| BidirectionalSender.Sender.Listen | bidirectional_sender.cpp:142-192 | Decode of a heard packet when the radio is up, counted when accepted |
| BidirectionalSender.Sender.Key | bidirectional_sender.cpp:197-217 | one character: the editor's new buffer; the frame of a finished line |
| BidirectionalSender.Sender.ReadSerial | bidirectional_sender.cpp:196-218 | the buffer after the input, and the frames of the lines it finished |
| BidirectionalSender.Sender.Loop | bidirectional_sender.cpp:128-219 | listen, then edit: the delivery of the heard packet, messageCount raised (wrapping at 2^32) exactly when a packet is accepted, the buffer the editor leaves, and exactly the frames of the finished lines |
| M1Station.Hours | m1_station.cpp:143-148 | hours % 24 from the millisecond stamp, below 24 |
| M1Station.Minutes | m1_station.cpp:143-148 | minutes % 60, below 60 |
| M1Station.Seconds | m1_station.cpp:143-148 | below 60 and a whole number of minutes short of the whole seconds |
| M1Station.ClockIsTimeOfDay | m1_station.cpp:143-148 | hours, minutes and seconds together are the stamp's seconds modulo a day |
| M1Station.Ascii | m1_station.cpp:147 | a format-string literal as its bytes |
| M1Station.TwoDigits | m1_station.cpp:147 | `%02lu` of a value below 100: two ASCII digits whose value is the number |
| M1Station.Clock | m1_station.cpp:147-148 | hh:mm:ss: 8 bytes, colons at 2 and 5, the three two-digit fields |
| M1Station.PhoneLine | m1_station.cpp:142-148 | 19 + n bytes: "[M2", the arrow's UTF-8 bytes, "M1 ", the clock, "] ", then the text; a 200-byte text fits the 250-byte buffer |
| M1Station.Station.constructor | m1_station.cpp:208-253 | the radio flag, no phone, no messages |
| M1Station.Station.SetConnected | m1_station.cpp:55-71 | the connection flag |
| M1Station.Station.SendMessageViaLoRa | m1_station.cpp:166-206 | nothing without the radio; otherwise EncodeFrame of the text |
| M1Station.Station.OnWrite | m1_station.cpp:75-88 | a non-empty write is sent over LoRa |
| M1Station.Station.SendMessageToPhone | m1_station.cpp:134-151 | nothing without a phone; otherwise the formatted line |
| M1Station.Station.Listen | m1_station.cpp:268-314 | an accepted packet is counted, and a connected phone gets its line |
| BleTransceiver.DeviceName | ble_bidirectional_transceiver.cpp:37-40 | "" for 0, "LoRa_Station_" followed by the id otherwise |
| BleTransceiver.DeviceNamesDiffer | ble_bidirectional_transceiver.cpp:37 | the two stations' names differ |
| BleTransceiver.Serialize | ble_bidirectional_transceiver.cpp:42-48 | the packed struct is 188 bytes |
| BleTransceiver.Parse | ble_bidirectional_transceiver.cpp:171 | reading 188 bytes gives a packet with a 180-byte text field |
| BleTransceiver.ParseSerialize | ble_bidirectional_transceiver.cpp:152-171 | a sent packet is read back unchanged |
| BleTransceiver.SerializeParse | ble_bidirectional_transceiver.cpp:171 | any 188 bytes read as a packet and written back are the same bytes |
| BleTransceiver.BuildPacket | ble_bidirectional_transceiver.cpp:132-142 | a packet iff 1 to 180 bytes: this station, the target, the id = now, the length |
| BleTransceiver.FilterFacts | ble_bidirectional_transceiver.cpp:175-177 | a broadcast from another station is kept; own packets and packets for the other station are not |
| BleTransceiver.ForUs | ble_bidirectional_transceiver.cpp:175-177 | definition of the address filter; properties in FilterFacts |
| BleTransceiver.TextAsWritten | ble_bidirectional_transceiver.cpp:191 | as written, String(packet.message) reads on past the field until a NUL |
| BleTransceiver.FullTextUnterminated | ble_bidirectional_transceiver.cpp:142 | a 180-byte text leaves the field with no NUL, so what is read depends on the bytes after the packet |
| BleTransceiver.CStrNul | ble_bidirectional_transceiver.cpp:191 | a NUL-free text followed by a NUL reads as that text |
| BleTransceiver.MessageText | ble_bidirectional_transceiver.cpp:191 | the corrected read: the C string within the 180-byte field |
| BleTransceiver.TerminatedTextAgrees | ble_bidirectional_transceiver.cpp:191 | on a field that holds a NUL, the as-written String(packet.message) read is exactly MessageText, whatever follows the struct |
| BleTransceiver.TextRoundTrip | ble_bidirectional_transceiver.cpp:137-191 | a sent text is read back as its C string |
| BleTransceiver.CStrNulPadded | ble_bidirectional_transceiver.cpp:142 | strncpy's NUL padding ends the text |
| BleTransceiver.PacketsForSnoc | ble_bidirectional_transceiver.cpp:285-306 | one more line adds its packet |
| BleTransceiver.Transceiver.constructor | ble_bidirectional_transceiver.cpp:206-268 | station 1 or 2, no phone, no messages, empty input |
| BleTransceiver.Transceiver.SetConnected | ble_bidirectional_transceiver.cpp:50-62 | the connection flag |
| BleTransceiver.Transceiver.SendMessage | ble_bidirectional_transceiver.cpp:126-164 | a 188-byte frame iff the radio is up and the text has 1 to 180 bytes; it parses to BuildPacket |
| BleTransceiver.Transceiver.OnWrite | ble_bidirectional_transceiver.cpp:65-72 | a write of 1 to 180 bytes is broadcast |
| BleTransceiver.Transceiver.CheckForMessages | ble_bidirectional_transceiver.cpp:166-204 | a packet for this station from another is counted and forwarded to a connected phone with its sender and the corrected MessageText read of its text |
| BleTransceiver.Transceiver.Key | ble_bidirectional_transceiver.cpp:286-305 | one character: the editor's new buffer with the 180 limit; a finished line's broadcast packet |
| BleTransceiver.Transceiver.ReadSerial | ble_bidirectional_transceiver.cpp:285-306 | the buffer after the input, and one broadcast packet per finished line |
| BleTransceiver.Transceiver.Loop | ble_bidirectional_transceiver.cpp:270-309 | checkForMessages, forwarding the corrected MessageText read, and then the serial input, with both contracts |
| BleText.Atob | Mob-app/src/services/BLEService.ts:167 | atob of the value's base64: one character per byte |
| BleText.Btoa | Mob-app/src/services/BLEService.ts:218 | btoa succeeds iff every character is below U+0100, giving one byte each |
| BleText.AtobOfBtoa | FreshLoRaApp/src/services/BLEService.ts:325 | a binary string survives btoa and then atob |
| BleText.BtoaOfAtob | FreshLoRaApp/src/services/BLEService.ts:259 | bytes survive atob and then btoa |
| BleText.RssiField | Mob-app/src/services/BLEService.ts:72 | `device.rssi \|\| undefined`: null and 0 are left out |
| BleText.SequenceLength | Mob-app/src/services/BLEService.ts:167 | the well-formed UTF-8 sequence at the front, at most 4 bytes; an ASCII byte is 1 |
| BleText.Utf8Decode | Mob-app/src/services/BLEService.ts:167 | UTF-8 decoding, never longer than the bytes |
| BleText.Utf8DecodeAscii | Mob-app/src/services/BLEService.ts:167 | on ASCII bytes UTF-8 decoding and atob agree, and decoding carries on unchanged after them |
| BleText.Utf8DecodeThree | m1_station.cpp:147 | a three-byte sequence decodes to its one character |
| MobBleService.ScanStationType | Mob-app/src/services/BLEService.ts:66 | M1 iff the name includes "M1" |
| MobBleService.Scan.constructor | Mob-app/src/services/BLEService.ts:45-46 | no devices found |
| MobBleService.Scan.OnDevice | Mob-app/src/services/BLEService.ts:59-74 | a named M1/M2/LoRa/ESP32 device with an unseen id is added once, with its type and RSSI |
| MobBleService.ScanAccepts | Mob-app/src/services/BLEService.ts:59-62 | definition of the scan name test; properties in Scan.OnDevice |
| MobBleService.FindMatch | Mob-app/src/services/BLEService.ts:171-172 | the leftmost position where the station-line pattern matches, or none |
| MobBleService.RestOfLine | Mob-app/src/services/BLEService.ts:171 | the greedy `(.+)`: the longest run without a line terminator |
| MobBleService.FallbackSender | Mob-app/src/services/BLEService.ts:192 | `name \|\| 'LoRa Device'`: never empty, the device name when it has one |
| MobBleService.ParseReceived | Mob-app/src/services/BLEService.ts:163-196 | none iff the decoded text is empty; never outgoing; deviceId 0 iff no station type; with no match, the whole text from the device |
| MobBleService.ParsedAtLeftmostMatch | Mob-app/src/services/BLEService.ts:174-185 | at the leftmost match: the text is the rest of that line, fromDevice, deviceId and stationType all follow the fromStation digit, and the message is incoming |
| MobBleService.MatchAt | Mob-app/src/services/BLEService.ts:171-172 | definition of a match of the format pattern at a position; properties in ParsedAtLeftmostMatch and FirmwareLineMissed |
| MobBleService.AtobNotification | Mob-app/src/services/BLEService.ts:163-168 | as written, the value is atob-decoded; none iff empty |
| MobBleService.FirmwareLineMissed | Mob-app/src/services/BLEService.ts:167-171 | as written, every M1 station line falls back: the UTF-8 arrow decoded by atob never matches → |
| MobBleService.Notification | Mob-app/src/services/BLEService.ts:163-168 | the corrected decoding, UTF-8; an empty value gives none |
| MobBleService.AtobAppend | Mob-app/src/services/BLEService.ts:167 | atob of a + b is atob of a followed by atob of b |
| MobBleService.AtobAscii | m1_station.cpp:147 | the ASCII literals of the format decode to themselves |
| MobBleService.ClockChars | m1_station.cpp:147-148 | the clock decodes to \d\d:\d\d:\d\d |
| MobBleService.PhoneLineDecoded | m1_station.cpp:147 | UTF-8 decoding of an M1 line is "[M2→M1 " + clock + "] " + the text |
| MobBleService.RestOfLineWhole | Mob-app/src/services/BLEService.ts:171 | with no line terminator left, `(.+)` takes the rest |
| MobBleService.HeadMatches | Mob-app/src/services/BLEService.ts:171 | the M1 line's head matches the pattern at position 0 |
| MobBleService.StationLineParsed | Mob-app/src/services/BLEService.ts:174-185 | such a line parses to the text from "M2 Station", id 2, type M2 |
| MobBleService.FirmwareLineParsed | Mob-app/src/services/BLEService.ts:163-185 | with UTF-8 decoding an M1 station line of ASCII text without CR/LF parses to its text from M2 |
| MobBleService.Service.constructor | Mob-app/src/services/BLEService.ts:4-10 | no device, no callback |
| MobBleService.Service.SetMessageCallback | Mob-app/src/services/BLEService.ts:249-251 | a callback is set |
| MobBleService.Service.ConnectToDevice | Mob-app/src/services/BLEService.ts:97-114 | the device is kept once the connection succeeds; true iff connection and discovery both succeed |
| MobBleService.Service.Disconnect | Mob-app/src/services/BLEService.ts:257-268 | the device is forgotten iff cancelling succeeds |
| MobBleService.Service.ConnectedStationType | Mob-app/src/services/BLEService.ts:274-278 | M1 iff the name is exactly "M1", M2 iff exactly "M2" |
| MobBleService.Service.OnNotification | Mob-app/src/services/BLEService.ts:130-135 | with a callback, the message parsed from the corrected UTF-8 decoding (Notification), otherwise nothing; on every ASCII value this is what the as-written atob decoding gives |
| MobBleService.Service.SendMessage | Mob-app/src/services/BLEService.ts:203-247 | false with no device, blank text or a character btoa refuses; otherwise btoa(text) is written, the result is the write's, and the echo goes to the callback |
| FreshBleService.IsLoRaDeviceReduced | FreshLoRaApp/src/services/BLEService.ts:135-148 | the thirteen tests come to: includes "ESP32", or the lower-case name includes "lora", "m1" or "m2" |
| FreshBleService.IsLoRaDevice | FreshLoRaApp/src/services/BLEService.ts:135-148 | definition of the thirteen name tests; properties in IsLoRaDeviceReduced |
| FreshBleService.StationPrefix | FreshLoRaApp/src/services/BLEService.ts:136-148 | a name that is or starts with Mx includes Mx and, lower-cased, mx |
| FreshBleService.LoRaPattern | FreshLoRaApp/src/services/BLEService.ts:140-144 | the three LoRa patterns imply the lower-case "lora" test |
| FreshBleService.ScanStationType | FreshLoRaApp/src/services/BLEService.ts:155-161 | M2 iff the name includes "M2" or its lower-case form "m2" |
| FreshBleService.ScanStationTypeLower | FreshLoRaApp/src/services/BLEService.ts:155-161 | M2 iff the lower-case name includes "m2" |
| FreshBleService.Scan.constructor | FreshLoRaApp/src/services/BLEService.ts:62-63 | no devices |
| FreshBleService.Scan.OnDevice | FreshLoRaApp/src/services/BLEService.ts:130-167 | a named device with an unseen id and a LoRa name is added once with its type and RSSI |
| FreshBleService.ConnectedStationType | FreshLoRaApp/src/services/BLEService.ts:366-373 | none iff disconnected; M2 iff the name includes "M2"; M1 otherwise, a null name included |
| FreshBleService.IncomingMessage | FreshLoRaApp/src/services/BLEService.ts:277-298 | the trimmed text from "remote", not own, id 1 for M1 and 2 for M2 |
| FreshBleService.AttributedToOtherStation | FreshLoRaApp/src/services/BLEService.ts:286-287 | a connected app never attributes a line to its own station type |
| FreshBleService.Service.constructor | FreshLoRaApp/src/services/BLEService.ts:4-9 | no device, no callback |
| FreshBleService.Service.SetMessageCallback | FreshLoRaApp/src/services/BLEService.ts:342-344 | a callback is set |
| FreshBleService.Service.ConnectToDevice | FreshLoRaApp/src/services/BLEService.ts:208-236 | the device on success, no device after a failure |
| FreshBleService.Service.Disconnect | FreshLoRaApp/src/services/BLEService.ts:346-356 | the device is forgotten iff cancelling succeeds |
| FreshBleService.Service.IsConnected | FreshLoRaApp/src/services/BLEService.ts:358-360 | connected iff there is a station type |
| FreshBleService.Service.OnNotification | FreshLoRaApp/src/services/BLEService.ts:256-262 | a non-empty value is atob-decoded and handed over when a callback is set |
| FreshBleService.Service.SendMessage | FreshLoRaApp/src/services/BLEService.ts:311-340 | false with no device or a character btoa refuses; otherwise btoa of the trimmed text, empty or not, is written and the result is the write's |

## Findings

| source | as written | input that shows it | evidently intended | confidence | as-written member | corrected member |
|---|---|---|---|---|---|---|
| photo_tunnel_sender.cpp:232 | the END CRC reads the 32 bytes from `photoData + photoSize - 32` | any photo under 32 bytes, e.g. 12 bytes: the read starts 20 bytes before the photo | the CRC of the last min(size, 32) bytes, as START does for the first | not executed | PhotoSender.EndCrcReadsBeforePhoto | PhotoFrame.EndHeader |
| photo_tunnel_receiver.cpp:241-250 | a DATA chunk is used as an index into `chunkReceived` and `buffer` without checking chunkIndex < totalChunks or offset + dataLen <= totalSize | a 13-byte DATA frame for chunk 5 with an empty payload (CRC 0xFFFF) while a 1-chunk, 10-byte photo is active | NACK a chunk outside the photo | not executed | PhotoRxSpec.StrayChunkPassesFirmware | PhotoRxSpec.RejectedChunk |
| m1_station.cpp:282-284 | `packet->message[packet->messageLen] = '\0'` for messageLen up to 200 | a full 200-byte message: the NUL is written at byte 206 of the 206-byte stack buffer | the text ends within the buffer; a sent text comes back unchanged | not executed | TextFrame.TerminatorOverrun | TextFrame.RoundTrip |
| ble_bidirectional_transceiver.cpp:142 | `strncpy(packet.message, text, 180)` on a 180-byte text leaves no NUL, and line 191 reads `packet.message` as a C string | a 180-character text: the receiver reads on into whatever follows the struct | the text read within the 180-byte field | not executed | BleTransceiver.FullTextUnterminated | BleTransceiver.TextRoundTrip |
| Mob-app/src/services/BLEService.ts:167-171 | the value is decoded by atob, one character per byte, then matched against a pattern that holds the character → (U+2192); the M1 station sends → as its three UTF-8 bytes (m1_station.cpp:147) | any line the M1 station notifies, e.g. "[M2→M1 00:00:00] hi": atob gives "â\u0086\u0092" instead of →, so the line is shown whole as a message from the device | decode the value as UTF-8, so the station line parses to "hi" from M2 Station | not executed | MobBleService.FirmwareLineMissed | MobBleService.FirmwareLineParsed |

## Left out

- Radio, BLE, SPI and serial I/O, `delay`, LED blinking, console logging: their results are parameters (a transmit succeeded, a packet was heard, a read failed), and what is printed is not modelled.
- Floating-point values (RSSI and SNR in the transceiver's phone line and logs, transfer speed, progress percentages): they affect nothing the stations decide.
- The notification texts of the sketches (welcome, "Sent[...]", "PROGRESS:%d/%d", "START:...", "COMPLETE:%u", "M1_MESSAGES:%u", heartbeats): notifications are modelled as values that carry their fields, not as formatted strings, except for the M1 station's message line.
- The complete tunnel's JSON documents (complete_tunnel.cpp:207-269): a received packet is the parsed type, from and data fields, and invalid JSON is "nothing received"; the 200-byte limit on the serialised JSON is not modelled.
- CompleteTunnel.LoRaSend: does not model the JSON `timestamp` field or the length check on the serialised document, because the JSON text is not modelled.
- The complete tunnel's and the demo's device ids come from the MAC address (generateDeviceId): the id is a constructor parameter.
- The heartbeat and status-log passes of the sketches' loops: they only print and notify status text.
- MobBleService.Service.OnNotification: decodes the value as UTF-8 (the corrected Notification of "## Findings") instead of with atob as parseReceivedMessage does; the two agree on ASCII values, and FirmwareLineMissed states what atob makes of the M1 station's line.
- BleTransceiver.Transceiver.CheckForMessages: forwards the corrected MessageText read within the 180-byte field (the corrected half of the ble_bidirectional_transceiver.cpp:142 row of "## Findings") instead of String(packet.message), which runs past the struct on an unterminated field; the two agree whenever the field holds a NUL (TerminatedTextAgrees).
- BleTransceiver.Transceiver.Loop: forwards what CheckForMessages does, so the same corrected MessageText read.
- The scan-state check of the FreshLoRaApp's scanForDevices (Bluetooth not PoweredOn throws, FreshLoRaApp/src/services/BLEService.ts:67-73), the scan-error path that stops the scan and rejects (93-117) and the scan timeout: errors and promises are not modelled; Scan.OnDevice models the device callback only.
- The 1 to 200 limit of the complete tunnel's and the demo's onWrite counts bytes, as Arduino `String::length()` does; the model's written value is its byte sequence, so a multi-byte UTF-8 character counts as its bytes there too.
- PhotoSender.WaitForAck: readData writes `len` bytes into a 13-byte stack buffer (photo_tunnel_sender.cpp:85-89), so a longer answer writes past it; the model reads only the header, and the memory beyond the buffer is not modelled.
- The receiver's `new uint8_t[totalSize]` is uninitialised; the model starts the buffer at zeros. The earlier buffer is freed and replaced, with no aliasing to model.
- The receiver's totalSize comes from the 16-bit dataLen of START (photo_tunnel_receiver.cpp:404), so the model's size is a `u16`; MAX_PHOTO_SIZE is declared but never checked by the source.
- PhotoTransfer.LosslessTransfer: requires a photo below 65536 bytes, because START carries the size in 16 bits and larger photos are cut even as written.
- The sender's demo photo pattern and the `s`/`p` serial commands: SendPhoto takes any photo, and PingHeader is the PING frame.
- Connection timeouts, `setupNotifications` errors and the status characteristic's monitor (Mob-app/src/services/BLEService.ts:139-155): the connection result is a parameter, and only the message characteristic is modelled.
- The apps' async/await, `Date.now()`, `Math.random()` message ids and timestamps: ChatMessage leaves the id and the Date out.
- atob and btoa's base64 text: the model works on the bytes under the base64 (react-native-ble-plx hands values over as base64 of the characteristic's bytes).
- BleText.Utf8Decode: replaces each ill-formed byte by one U+FFFD, where the WHATWG decoder replaces each maximal ill-formed subpart; the two agree on well-formed input and on the station lines.
- Text.Lower: only ASCII letters are lowered; `toLowerCase` also lowers other scripts, which the name patterns never test.
- getConnectedDevice, getConnectedDeviceName, setStatusCallback and destroy of the services: accessors with no logic.
- The phone UI screens, the TempLoRaApp, BLEServiceDebug, the bridges and the test sketches are not part of this model; nor is station_m1.cpp.
- The module include/*.h headers are not part of this model.
