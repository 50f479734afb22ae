# Verified model of odor

odor is a BitTorrent client in Go, with its own implementation of uTP, a transport over UDP with reordering,
acknowledgements and delay-based congestion control (BEP 29, section 2.4.2 of RFC 6817). This project models three of
its components and proves what they are for.

* **The uTP endpoint** (`Packet`, `Extensions`, `Sack`, `Receive`, `Wrap`,
  `Replies`, `Acks`, `Stale`, `Connecting`, `Reusing`, `Strangers`, `Window`, `Congestion`, `Handshake`, `Socket`, `Delay`,
  `EndToEnd`).
  `Socket.UtpSocket` has the fields and methods of the socket. The network is a finite script of arrivals; a receive may
  happen inside a send, which happens inside the handling of an acknowledgement, which happens inside a receive, and the
  rest of the script is what this recursion gets smaller by. Every invariant holds across those nested receives. The
  receive side is proved equal, step by step, to the functions in `Receive`, about which delivery is proved over whole
  runs; the send side keeps a ledger (`Window.Ledger`) of everything handed to SendTo. `EndToEnd` joins the two over the
  wire format.
* **Geometry and bookkeeping of a download** (`MetaInfo`, `Pieces`, `Requests`, `Assembly`): pieces and blocks as a
  two-level tiling, rounds of requests, and the assembly of the file by concurrent writes.
* **Parsers and printers** (`Parsec`, `Bencode`, `Message`): combinators and their laws, the bencode round trip, and the
  framing of peer messages.

`dafny verify dfyconfig.toml` checks everything.

## The code as it stands, and as its comments say

The uTP package calls itself an untested port, and in many places the code does something other than its own comment, or
BEP 29, says. The model follows the code. Where a property needs the documented behaviour instead, the function takes a
parameter of type `Bytes.Build`: `AsWritten` is the code, `AsCommented` is the code with that one place put right. For each
place a lemma says exactly when the two agree, or when the code as written does what it is for. The hard properties are
proved for `AsCommented`.

A member without a `Build` parameter holds of the code as written, except for these, which hold with the repairs only: in
`Receive` everything from `ArriveKeeps` on but for the members about a `Handout`, all of `Wrap`, `Replies`, `Connecting`,
`Strangers` and `EndToEnd` (but for `WrittenTransfersNothing`), and everything in `Acks`, `Stale` and `Reusing`, with the
repairs but the one that is looked at; in `Sack` `VectorMeansBuffered`, `LostPackets`,
`LostHolds` and `SackRoundTrip`; in `Extensions` `CheckChain`, `TurnInChain`, `IterationIsRight`, `Collect`, `SackIsAccepted`,
`SackIsRead` and `SackIsReadIff`; in `Socket` `ReplyIsConveyed`, `HandedInOrder`, `HandedInOrderDialed`, `NothingHeardYet`,
`ReadIsHandedOnIff`, `WastedBytes`, `DueIsTakenOnce` and `WaitingSendWastes`; in `Bencode` everything about lists and
dictionaries but `ConstructibleIff`.

| place | as written | as commented | where it is settled |
|---|---|---|---|
| utp/packet.go:128-130 | version nibble 0, which the receiver refuses | version 1 | `Packet.BuiltPacketsAccepted` |
| utp/packet.go:262-266 | the difference overwrites the timestamp | stored in its own field | `Packet.SettersReadBack` |
| utp/packet.go:391 | the iterator moves 2 bytes on | it moves past the data too | `Extensions.IterationIsRight`, `Extensions.WrittenIterationIff`: as written right for all contents exactly if there are fewer than two extensions |
| utp/packet.go:404-424 | the type never changes in the loop, so any extension is refused | it follows the chain | `Extensions.CheckChain`, `Extensions.WrittenCheckRefusesExtensions` |
| utp/packet.go:341-345 | appending overwrites the tail it shares storage with | the tail is copied first | `Extensions.SetSack`, `Extensions.SharedSackIff`: right exactly if the tail begins like what is written over it, for instance if it is empty |
| utp/socket.go:155 | sending and receiving id swapped | sending id is one more | `Handshake.WrittenIdsNeverWork` |
| utp/socket.go:623 | a packet is compared with its own acknowledgement number | a data packet that follows ackNr, on an open connection | `Receive.WrittenMeetsComments`, `Acks.WrittenSkipsAGap`, `Acks.InOrderAckingIff` |
| utp/socket.go:405 | any packet but the last one dropped is stored | only packets ahead of it | `Receive.WrittenMeetsComments`, `Stale.InOrderStaleIff` |
| utp/socket.go:644-650 | the answer to a SYN is not counted, so that the first data packet has its number too | it is counted (BEP 29, section "connection setup") | `Socket.UtpSocket.HandlePacket`; `Reusing.InOrderReusedIff` and `Reusing.CompleteReusedIff` against `Connecting.InOrderDialedIff` and `Connecting.CompleteDialedIff` |
| utp/socket.go:641-650 | accepting a connection leaves lastAcked at 0, from which the first packets can seem acknowledged | lastAcked is the number of the answer | `Window.FirstIsSkippedIff`: until something is acknowledged, as written exactly the packets with numbers above 2^15 are left out |
| utp/socket.go:765 | the delay is divided by the target before the difference is taken | the difference is divided | `Congestion.GrowsIff`, `Congestion.IgnoresDelayIff`, `Congestion.SmallFlightIgnoresDelay` |
| utp/socket.go:427 | an empty buffer is indexed | the packet becomes the buffer | `Receive.InsertIsSortedInsertion` |
| utp/socket.go:936, utp/socket.go:946 | base seqNr; grows while the length is a multiple of 4 | base ackNr; grows until it is one | `Sack.WrongBaseIff`, `Sack.WrittenVectors` |
| utp/bitstream.go:31-33 | the bit test compares with 1 | compares with 0 | `Sack.CountOnes` |
| utp/bitstream.go:35-41 | the cursor never moves | it moves on | `Sack.BitStream.Next`, `Sack.LoopEndsIff`: as written a loop over the bits ends exactly if there are none |
| utp/socket.go:1070-1078 | the minimum starts at 0 | it starts at the first delay | `Delay.DelayHistory.MinBaseDelay` |
| parsec/parsec.go:457 | reads past the end of the input | stops there | `Parsec.TakeWhileObeys` |
| parsec/parsec.go:665 | a number that comes to zero is no number | no digits is no number | `Parsec.WrittenNumber` |
| parsec/parsec.go:791-801 | Count returns the whole input as remainder | what is left | `Parsec.Count` |
| parsec/parsec.go:845-849 | the second match is not consumed | it is | `Parsec.ThenDiscardObeys` |
| formats/bencode_parser.go:129, formats/bencode_parser.go:199 | the parsers of lists and dictionaries construct each other without end | each is constructed when it is needed | `Bencode.ConstructibleIff`, `Bencode.WrittenRoundTrip` |
| formats/benc_enc.go:65, formats/benc_enc.go:71-76 | a stray space behind a list; keys left out | neither | `Bencode.WrittenPrintIff`: read with everything else repaired, exactly the non-negative integers, the strings and the empty dictionary survive |

`Bencode.BencList` and `Bencode.BenDict` carry these repairs without a switch, since as written they are never reached: an
error is told apart by its kind, not by the identity of a freshly made value (formats/bencode_parser.go:175-178,
formats/bencode_parser.go:225-236, formats/bencode_parser.go:251-253); the inner lists of a list are part of the result, and its end
marker is consumed (formats/bencode_parser.go:146-186); the remainder moves past a dictionary inside a dictionary, and the
value itself is stored (formats/bencode_parser.go:226-247); an empty dictionary leaves what follows it, not the whole input
(formats/bencode_parser.go:210-219).

Other things that the proofs brought to light, all of them modelled as they are:

* A SYN that is delivered a second time is answered with a reset. Over every run of the handshake and after, a reset is sent if
  and only if that happens (`Handshake.ResetIff`; `Handshake.RepeatedSynResets` is such a run).
* Data is stored and handed on without any connection, and for any connection id. So a socket that nobody has connected to
  can hand on the bytes of a stranger (`Strangers.StrangerIsHeard`), and what it has buffered is taken for the data of the
  peer whose connection it accepts (`Strangers.StrangerIsTakenForPeer`). An accepted connection starts from `Receive.Fresh`
  if and only if nothing was buffered (`Socket.UtpSocket.HandlePacket`); before that, nothing is stored or handed on exactly
  as long as no data packet with a new number arrives (`Strangers.UntouchedIff`).
* Sequence numbers are compared without wrap-around when packets are buffered, so a stream that wraps can stall
  (`Receive.WrapStalls`), or be delivered out of order (`Wrap.OutOfOrderAtWrap`). And a stream of more than 2^15 + 2 packets can
  have its first packet taken for a new one at the end, without any wrap (`Wrap.OutOfOrderAtHalf`). Delivery is in order for
  exactly the other streams (`Wrap.InOrderIff`), and complete for exactly those of fewer than 2^15 packets among them
  (`Wrap.CompleteIff`).
* The acceptor gives the first data packet the number of its answer, which the connecting side has acknowledged by then. So the
  second packet, if it arrives first, is handed on, and the first one is refused for good (`Reusing.SecondIsTakenForFirst`).
  Delivery is complete exactly of a single packet numbered below 2^15 (`Reusing.CompleteReusedIff`), and in order exactly
  under the condition of `Reusing.InOrderReusedIff`.
* Even if the answer is counted, lastDropped is 0 at the connecting side when the connection is made, so that packets numbered
  from 2^15 on are refused until the first packet has been handed on; delivery is complete exactly if all numbers are below
  2^15 (`Connecting.CompleteDialedIff`, `Connecting.InOrderDialedIff`).
* The vector of a selective acknowledgement leaves out what was sent after the wrap (`Sack.WrapIsLeftOut`); what the peer makes
  of it is right exactly under the condition of `Sack.SackRoundTrip`.
* Only the lowest byte of the length of a vector travels, so that a reply with a vector of 256 bytes or more is refused or read
  with a made-up payload (`Socket.ReplyIsConveyed`).
* A receive nested in a send, in Flush or in Close reads into a buffer that nobody looks at. What RecvFrom has returned is all
  that was handed on if and only if no such receive has handed on anything (`Socket.UtpSocket.ReadIsHandedOnIff`), and
  RecvFrom itself wastes nothing unless two packets or more are in flight (`Socket.UtpSocket.RecvFrom`). A send that waits
  on a connection just made, with two packets in flight, wastes the next packet of the peer (`Socket.WaitingSendWastes`).
* A packet is not sent if its number seems acknowledged, and that counts as success. The test is right for all packets within
  2^15 of the last acknowledged one, but for that one itself, which is sent again (`Window.SkippedIff`); and it spares
  everything that has not been acknowledged exactly as long as that reaches at most 2^15 beyond the number acknowledged last,
  which an old acknowledgement that comes late moves back (`EndToEnd.NothingUnackedIsSkippedIff`).
* As written the congestion window grows at every queuing delay, and the factor that the comment has between -1 and 1 is above
  57050 (`Congestion.GrowsIff`, `Congestion.WrittenOffTarget`); with at most 56 packets in flight the delay makes no
  difference at all (`Congestion.SmallFlightIgnoresDelay`).
* A receive that times out with nothing in flight sends a FIN, though the comment above it says that a socket which has not
  sent one asks for packets (utp/socket.go:455-475, `Socket.UtpSocket.HandleReceiveTimeout`).
* Header fields travel little-endian, while BEP 29 asks for network byte order (`Packet.FieldsTravelLittleEndian`).
* A packet whose acknowledgement cannot be written counts as acknowledged and is never stored. One such failure can make the
  socket leave out a packet for good (`Replies.FailedReplySkips`), or hand on nothing any more although everything has
  arrived (`Replies.FailedReplyStalls`). Exactly which failures make a packet be left out is `Replies.FailedReplyIff` for a
  single one and `Replies.InSequenceIff` over runs; exactly which ones can keep delivery from ever being complete is
  `Replies.FailedReplyCompletesIff` and `Replies.CompletableIff`. The former are called harmful below, and replies that fail
  otherwise than the latter prompt.
* The acknowledgement test as written delivers in order, under a condition, streams that end with number 0, which the
  repaired one does not: it gets stuck in the place where that one overtakes (`Acks.InOrderAckingIff`).
* Each send that fails loses one packet for good (`Window.Ledger.Dropped`).
* Close takes the state back to FinSent exactly when its FIN is written after the peer has closed or reset the connection
  (`Socket.UtpSocket.SendFin`), for instance on a socket that has been reset with nothing in flight (`Socket.UtpSocket.Close`).
* The extensions of an acknowledgement are used up by the first loop, so the test for a selective acknowledgement after it
  (utp/socket.go:818-825) never finds one (`Extensions.Collect`); and the retransmission it guards happens on every count of
  duplicates but three (utp/socket.go:826, `Socket.UtpSocket.Repair`).
* The loop that receives pieces counts them. It is done when as many have arrived as there are, which is all of them if and
  only if none has arrived twice (`Assembly.EnoughIsCompleteIff`).
* NeWQ starts the queue with an entry of length 0 that hides the first block of the torrent (`Requests.PhantomHidesFirstBlock`).
* The connection states of a peer are bitwise ands, so an Unchoke stops requests instead of starting them
  (`Requests.UnchokeStopsRequests`).
* Choke, Unchoke and Interested write nothing, Have overwrites its own id, and a Piece message built by its constructor is
  a Request with the wrong layout (`Message.LostMessages`).
* StrN with a length below 1 loses a byte of its input (`Parsec.StrNLaw`).

## Model

| member | source | states |
|---|---|---|
| `MetaInfo.MetaInfo.ComputeSize` | formats/metainfo.go:64-75 | the loop returns the sum of the file lengths, or the only length of a single file |
| `MetaInfo.PieceInside` | formats/metainfo.go:87-95 | a piece starts inside the file exactly if its index is below ceil(Size / PieceLen) |
| `MetaInfo.PieceBoundsWidth` | formats/metainfo.go:78-95 | PieceBounds differ by PieceLen exactly if the piece does not start beyond the file |
| `MetaInfo.PiecesTile` | formats/metainfo.go:78-95 | pieces are non-empty and follow one another from 0 to Size |
| `MetaInfo.BlocksTilePiece` | formats/metainfo.go:98-115 | the blocks of a piece are non-empty, at most BLOCK_LEN long, consecutive, and cover the piece exactly |
| `MetaInfo.AllBlocksTile` | queue.go:20-29 | the blocks of consecutive pieces, in queue order, tile the bytes of those pieces |
| `MetaInfo.BlocksPartitionFile` | queue.go:20-29 | enqueuing pieces 0..k-1 tiles [0, Size) if and only if k is the piece count, or one more when the last piece is full |
| `MetaInfo.TilesPartition` | formats/metainfo.go:87-95 | in a tiling every byte lies in exactly one range |
| `Pieces.PiecesState.constructor` | pieces.go:18-40 | both matrices have one unset flag per block of every piece, and share no storage |
| `Pieces.PiecesState.AssertReqd` | pieces.go:43-46 | sets exactly one requested flag; the received matrix is untouched |
| `Pieces.PiecesState.AssertRecvd` | pieces.go:49-51 | sets exactly one received flag; the requested matrix is untouched |
| `Pieces.PiecesState.PieceDone` | pieces.go:53-61 | true if and only if every block of the piece has been received |
| `Pieces.PiecesState.IsDone` | pieces.go:64-73 | true if and only if every block of every piece has been received |
| `Pieces.PiecesState.Reset` | pieces.go:88-98 | the requested matrix becomes equal to the received one, in fresh storage |
| `Pieces.PiecesState.IsNeeded` | pieces.go:75-101 | the answer is whether the block is unrequested after the reset that a full matrix triggers, and the new state is that of the reset |
| `Pieces.SomeBlockNeeded` | pieces.go:75-101 | some block is needed if and only if not everything has been both requested and received |
| `Pieces.StepKeepsInv` | pieces.go:43-101 | every offer and every arrival keeps the invariant of rounds, and what was received stays received |
| `Pieces.RequestsOncePerRound` | pieces.go:75-101 | over every run that begins with the invariant no block is requested twice in a round, and each round requests only what was missing when it began |
| `Pieces.TorrentRequests` | pieces.go:18-101 | the same over every run from the moment the bookkeeping of a torrent is set up |
| `Requests.Queue.constructor` | queue.go:11-17 | a new queue holds one all-zero entry and is choked |
| `Requests.Queue.Enq` | queue.go:20-29 | the loop appends exactly the blocks of the piece, in order |
| `Requests.Queue.Deq` | queue.go:31-35 | returns and removes the first entry |
| `Requests.ReqPiece` | pwp.go:92-105 | when unchoked, state and request are those of the scan for the first needed entry; when choked nothing happens |
| `Requests.ReqPieceTakesFirstNeeded` | pwp.go:92-105 | the request is for the first needed entry, and there is none if no entry is needed |
| `Requests.ReqPieceIsRun` | pwp.go:92-105 | what ReqPiece does is a run of the bookkeeping that logs exactly the request it sends |
| `Requests.ReqPieceKeepsGoing` | pwp.go:96-104 | with every block on offer, something is requested if and only if not everything has been requested and received |
| `Requests.PhantomHidesFirstBlock` | queue.go:11-17 | with the initial entry in front, the first block of the torrent is never requested |
| `Requests.DownloadPiece` | pwp.go:107-137 | the accumulating loop requests a prefix of the blocks of the division form, one per turn on which the gate is open, and all of them, up to the piece length, when it finishes; it ends by finishing, with no turns left, with a request that cannot be written, or with a reply that cannot be read, on the turn where `Ends` has it |
| `Requests.EndsOneWay` | pwp.go:107-137 | for every sequence of turns there is one of these four ways in which the loop can end |
| `Requests.FinishesIff` | pwp.go:107-137 | it finishes if and only if the gate is open from the start, there are as many turns as blocks, the requests on these can be written, and no Choke, Unchoke or unreadable reply arrives, but that the last reply only has to be readable |
| `Requests.UnchokeStopsRequests` | pwp.go:17-26 | after an Unchoke nothing more is requested: a Choke, which would set the state back, closes the connection |
| `Requests.RequestsEnd` | pwp.go:111-134 | whenever an Unchoke or a Choke arrives, no more blocks are requested than there were turns up to then |
| `Assembly.ReceivePieces` | torrent.go:175-185 | one write is started per piece received; the loop ends at the first piece of the wrong length, or when there are enough |
| `Assembly.FlattenPieces` | formats/metainfo.go:87-95 | byte o of piece i is byte i * PieceLen + o of the concatenation of all pieces |
| `Assembly.WriteKeepsInv` | torrent.go:181-184 | a partial write keeps every byte written so far in its place, whatever other writes have done |
| `Assembly.RunKeepsInv` | torrent.go:175-185 | so does every interleaving of arrivals and writes |
| `Assembly.CompleteFile` | torrent.go:187 | once all pieces have arrived and all writes are done, the file is the concatenation of the pieces |
| `Assembly.EnoughIsCompleteIff` | torrent.go:175-187 | once the loop has started as many writes as there are pieces and these are done, every piece has been written if and only if none arrived twice |
| `Assembly.AssemblyIsScheduleIndependent` | torrent.go:175-187 | for every arrival order and every interleaving of the writes the file is the pieces in order |
| `Message.Marshall` | formats/message.go:127-218 | writes the frame of each message, and nothing for the ids that the or-ed case misses |
| `Message.MessageRoundTrip` | formats/message.go:127-250 | a message is read back, with the rest of the stream left alone, if and only if it is sound |
| `Message.StreamIsRead` | formats/message.go:222-250 | the concatenation of messages that their length prefixes can count is read to its end, as the messages that survive |
| `Message.StreamRoundTrip` | formats/message.go:222-250 | for every list of messages, reading the concatenation returns exactly the messages sent if and only if all are sound |
| `Message.BigFrameIsCut` | formats/message.go:127-250 | a bitfield or piece too long for its prefix is read as what the prefix counts modulo 2^32, and reading goes on in the middle of it |
| `Message.RequestArrives` | formats/message.go:295-318 | Request and Cancel arrive and name the block they were made for |
| `Message.LostMessages` | formats/message.go:127-149 | Choke, Unchoke, Interested and Have write nothing; no constructed Piece message can be parsed |
| `Message.PieceIsParsed` | formats/message.go:325-339 | a Piece message with the layout of BEP 3 is parsed into its fields |
| `Message.Set` | formats/message.go:97-108 | sets exactly one bit, and fails exactly outside the bitfield |
| `Message.SendPieces` | formats/message.go:97-120 | a set of pieces entered with Set and sent as a BitField is read back by Has as exactly that set |
| `Packet.FieldsTravelLittleEndian` | utp/utils.go:24-26 | swapping bytes twice is no change; stored fields are little-endian |
| `Packet.SettersReadBack` | utp/packet.go:204-310 | each setter is read back by its getter and changes no other byte; for the difference as written only if it already had that value |
| `Packet.ChectExts` | utp/packet.go:398-431 | as written, accepts exactly the packets that announce no extension |
| `Packet.PacketFromBytes` | utp/packet.go:178-186 | accepts exactly long enough packets with version 1, a known type and acceptable extensions |
| `Packet.BuiltPacketsAccepted` | utp/packet.go:171-199 | what the constructors build is accepted if and only if the version is put right; the payload is what was given |
| `Packet.EncodeDecode` | utp/packet.go:189-310 | a packet built from its fields is decoded to these fields, whatever its timestamps; as written it is refused |
| `Extensions.CheckChain` | utp/packet.go:398-431 | accepts exactly the well-formed chains of extensions |
| `Extensions.WrittenCheckRefusesExtensions` | utp/packet.go:398-431 | as written, what is accepted is the well-formed packets with no extension |
| `Extensions.GetPayload` | utp/packet.go:230-240 | stays in bounds and returns what lies behind the extensions |
| `Extensions.ExtIter.constructor` | utp/packet.go:370-377 | the iterator starts at the head of the chain; a first type above 1 becomes the invalid one |
| `Extensions.ExtIter.Next` | utp/packet.go:378-396 | the result and the new cursor for every cursor: no more extensions, the next one, or bytes beyond the packet; as written the cursor moves only past two bytes |
| `Extensions.TurnInChain` | utp/packet.go:378-396 | with the repair the next extension is returned and the rest of the chain is left |
| `Extensions.IterationIsRight` | utp/packet.go:378-396 | with the repair iterating over laid-out extensions returns exactly these |
| `Extensions.WrittenIterationIff` | utp/packet.go:391 | as written iteration over extensions of given types and lengths is right, whatever they hold, if and only if there are fewer than two |
| `Extensions.Collect` | utp/socket.go:779-825 | iterating to the end yields exactly the extensions of the chain, and asking again finds no more |
| `Extensions.LayIsRead` | utp/packet.go:230-240 | extensions laid out behind a header are read back as the same list, with the payload where the layout ends |
| `Extensions.PacketSplits` | utp/packet.go:230-240 | header, laid-out extensions and payload make up every well-formed packet |
| `Extensions.SetSack` | utp/packet.go:313-348 | in the shared array, step by step: vectors of other lengths than a positive multiple of 4 are refused; otherwise the extension is spliced in at the end of the chain, and as written what lies behind is written over first |
| `Extensions.Append` | utp/packet.go:341-345 | append writes in place while there is room, and otherwise leaves the array alone and returns a larger copy |
| `Extensions.SharedSackIff` | utp/packet.go:341-345 | as written the packet is the right one if and only if what lies behind the chain begins like what is written over it, which is one byte 0 at least |
| `Extensions.ReadPacket` | utp/packet.go:178-186 | what is accepted, with its fields, payload and extensions |
| `Extensions.BuiltIsAccepted` | utp/packet.go:189-198 | a built packet is read as what it was built from; as written it is refused |
| `Extensions.SackIsRead` | utp/packet.go:313-348 | after setSack, for a vector of any length: the peer refuses the packet if the length is a multiple of 256, and otherwise reads so many bytes of it as one more extension, and the others as the beginning of the payload |
| `Extensions.SackIsReadIff` | utp/packet.go:313-348 | the peer reads the same packet with the vector as one more extension if and only if the vector is shorter than 256 bytes |
| `Sack.BuildSelectiveAck` | utp/socket.go:933-952 | both loops together compute the vector of the buffered packets, or run out of range |
| `Sack.WrittenVectors` | utp/socket.go:943-950 | as written a vector is built exactly if each longest one so far needs a byte divisible by 4, and its length is then never a multiple of 4 |
| `Sack.WrongBaseIff` | utp/socket.go:936 | with the length put right, the wrong base number makes no difference if and only if every buffered packet is judged alike against both numbers |
| `Sack.VectorMeansBuffered` | utp/socket.go:933-952 | for all numbers: bit k is set if and only if packet ackNr + 2 + k is buffered and its number is greater than ackNr + 1; the length is a multiple of 4, and at most 8192 |
| `Sack.WrapIsLeftOut` | utp/socket.go:936 | a buffered packet from beyond the wrap is not in the vector |
| `Sack.CountOnes` | utp/bitstream.go:19-33 | the number of set bits; as written that of the set bits that are the lowest of a byte, which is the right number if and only if no other bit is set |
| `Sack.BitStream.constructor` | utp/bitstream.go:10-16 | the cursor starts at the first bit |
| `Sack.BitStream.Next` | utp/bitstream.go:35-41 | returns the bit at the cursor while there is one; as written the cursor stays |
| `Sack.LoopEndsIff` | utp/socket.go:791-803 | a loop that calls Next until there is no bit ends, as written if and only if there are no bits |
| `Sack.LostPackets` | utp/socket.go:790-802 | the loop over the bits collects the reported losses |
| `Sack.LostHolds` | utp/socket.go:793-801 | for all numbers: one is reported if and only if it belongs to an unset bit and is below the last one sent |
| `Sack.SackRoundTrip` | utp/socket.go:790-802 | the peer reports exactly the packets in the span that it has sent before its last one and that are not buffered, if and only if the wrap of the numbers is not in the way; the condition covers all numbers and buffers |
| `Receive.InsertIsSortedInsertion` | utp/socket.go:424-450 | insertion keeps the buffer sorted, adds the packet unless its number is there, keeps the rest, never ends out of bounds, and panics exactly as written on an empty buffer |
| `Receive.WrittenMeetsComments` | utp/socket.go:404-427 | when each of the three tests agrees with its comment, for all states and packets |
| `Acks.WrittenSkipsAGap` | utp/socket.go:621-625 | with that test as written the first packet to arrive can be handed on with three missing before it |
| `Acks.InOrderAckingIff` | utp/socket.go:621-625 | with that test as written, for every stream, whatever the run and whichever replies fail, delivery is in order if and only if: the repaired socket delivers it in order, and no packet with a number of the stream but the first data packet acknowledges the number before its own; or it ends with number 0 and has at most 2^15 + 3 packets, and none of these does, with exceptions at 2^15 packets and at one more |
| `Stale.InOrderStaleIff` | utp/socket.go:404-411 | with the storing test as written delivery is in order, over all runs without a harmful failed reply, if and only if there are at most two packets and their numbers do not wrap |
| `Receive.WrapStalls` | utp/socket.go:424-446 | a packet from beyond the wrap blocks the packet that is due |
| `Receive.ArriveKeeps` | utp/socket.go:404-411 | the arrival of any packet of the stream keeps the invariant |
| `Receive.ArriveLosesNone` | utp/socket.go:404-411 | it loses no buffered packet, and buffers the new one unless it was delivered, in streams of fewer than 2^15 packets |
| `Receive.FlushKeeps` | utp/socket.go:565-604 | a flush into any number of bytes keeps the invariant, drops at most the packet that is due, and the bytes handed on continue those before |
| `Receive.FlushProgress` | utp/socket.go:565-589 | a flush hands on at least one byte if the packet that is due is there |
| `Receive.AfterOneMore` | utp/socket.go:404-416 | a run with one more event is the run followed by that event |
| `Receive.RunKeeps` | utp/socket.go:404-416 | every run in which no failed reply does harm keeps the invariant and loses no buffered packet |
| `Receive.DeliveryIsPrefix` | utp/socket.go:565-604 | in-order, exactly-once delivery: in every run without a harmful failed reply, with any order, repeats and read sizes, the bytes returned are a prefix of the stream; for all streams for which that is true (`Wrap.InOrderIff`) |
| `Receive.DeliveryIsComplete` | utp/socket.go:565-604 | once every packet has arrived and been answered, and as long as the replies that failed were prompt, enough reads return the whole stream; for all streams and runs for which that is true (`Wrap.CompleteIff`, `Replies.CompletableIff`) |
| `Wrap.InOrderIff` | utp/socket.go:424-450 | n packets after a given number are delivered in order, whatever their bytes and over all runs without a harmful failed reply, if and only if their numbers do not wrap and n is at most 2^15 + 2 |
| `Wrap.CompleteIff` | utp/socket.go:404-450 | n packets are delivered completely once all have arrived, in whatever order, over all runs in which the replies that fail are prompt, if and only if their numbers do not wrap and n is below 2^15 |
| `Wrap.InOrder` | utp/socket.go:404-450 | arriving in order, any stream is delivered, wherever its numbers wrap and however many there are |
| `Wrap.OutOfOrder` | utp/socket.go:404-446 | every other stream has a run that delivers the wrong bytes: across the wrap, or after 2^15 + 2 packets |
| `Replies.FailedReplySkips` | utp/socket.go:396-402 | a reply that fails makes the socket hand on the next packet and refuse the unanswered one for good |
| `Replies.FailedReplyIff` | utp/socket.go:391-411 | from every reachable state: a failed reply can make the socket leave out a packet if and only if it is that to the packet due, nothing is pending, that packet is not buffered, and there is another one after it |
| `Replies.InSequenceIff` | utp/socket.go:391-411 | over every run packets are handed on in sequence, however the run goes on, if and only if no failed reply is such a one |
| `Replies.FailedReplyStalls` | utp/socket.go:396-402 | packets 6, 7 and 8 have all arrived and been answered, but a second reply to 7 has failed: only 6 is ever handed on, whatever is read or arrives |
| `Replies.FailedReplyStallsForGood` | utp/socket.go:391-402 | for every stream and state: if the reply to the packet that is due fails with nothing pending and that packet buffered, and the next packet arrives then, no run hands on another byte |
| `Replies.FailedReplySkipsForGood` | utp/socket.go:391-411 | if it is not buffered, and the next packet arrives then, fewer bytes than those of the stream are handed on, however the run goes on with replies that are written |
| `Replies.FailedReplyCompletesIff` | utp/socket.go:391-411 | from every state that a run with prompt replies reaches: after a failed reply delivery can be completed, however the run goes on with prompt ones, if and only if it was prompt, that is not that to the packet due with nothing pending and another one after it |
| `Replies.CompletableIff` | utp/socket.go:391-411 | over every run delivery can be completed at every point if and only if all replies that failed were prompt |
| `Connecting.InOrderDialedIff` | utp/socket.go:404-416 | the exact condition for in-order delivery, over all runs without a harmful failed reply, at the side that made the connection, from a peer that counts its answer to the SYN |
| `Connecting.CompleteDialedIff` | utp/socket.go:404-416 | from such a peer delivery is complete there, over all runs in which the replies that fail are prompt, if and only if all numbers are below 2^15 |
| `Reusing.SecondIsTakenForFirst` | utp/socket.go:653-660 | with the numbers this code gives, the second packet, arriving first, is handed on, and the first one refused for good |
| `Reusing.InOrderReusedIff` | utp/socket.go:641-660 | with these numbers delivery at the connecting side is in order, over all runs without a harmful failed reply, if and only if there is one packet at most, or the first number is 2^15 - 1 and the numbers do not wrap, or nothing is ever delivered |
| `Reusing.CompleteReusedIff` | utp/socket.go:641-660 | and complete, over all runs in which the replies that fail are prompt, if and only if there is one packet at most, numbered below 2^15 |
| `Strangers.StrangerIsHeard` | utp/socket.go:404-414 | a socket without a connection hands on the byte of a data packet |
| `Strangers.StrangerIsTakenForPeer` | utp/socket.go:404-414 | what was buffered before a connection is accepted is handed on as its first byte |
| `Strangers.UntouchedIff` | utp/socket.go:404-414 | over every run without a connection, nothing is stored or handed on at any time if and only if no data packet with a new number arrives |
| `Receive.ReadIsAllIff` | utp/socket.go:565-590 | the bytes given to readers are all that were handed on if and only if none went to nobody |
| `Window.AckedPrefixUnique` | utp/socket.go:851-860 | there is one number of packets that an acknowledgement removes |
| `Window.CumulativeAck` | utp/socket.go:841-862 | in a window below 2^15 packets, across the wrap, a packet is removed if and only if it is at or before the acknowledged one in serial order and that one is in the window |
| `Window.SentInOrder` | utp/socket.go:530-541 | what was sent, then what is queued, is what was built with packets left out: nothing reordered or repeated |
| `Window.PacketsConserved` | utp/socket.go:530-541 | every packet built was sent, is queued, or was lost by a failed send |
| `Window.BytesConserved` | utp/socket.go:530-541 | the same in bytes: the bytes handed to SendTo, with one header per packet |
| `Window.SkipsIffBehind` | utp/socket.go:888-895 | a number is taken for acknowledged exactly if it is behind the last acknowledged one in serial order |
| `Window.SkippedIff` | utp/socket.go:888-895 | packet i of a stream is taken for acknowledged exactly if its distance from those acknowledged, modulo 2^16, is more than 2^15; within 2^15 that is if it has been acknowledged and was not the last one |
| `Window.NoneSkippedIff` | utp/socket.go:888-895 | whatever has been acknowledged last, none of w packets is left out if and only if the last of them is at most 2^15 ahead of it, counting from the first |
| `Window.FirstIsSkippedIff` | utp/socket.go:641-650 | on an accepted connection, before anything is acknowledged: as written a packet is left out if and only if its number is above 2^15, and none of the first w is if and only if their numbers do not exceed that; with the repair none is if and only if there are at most 2^15 |
| `Window.NothingLost` | utp/socket.go:530-541 | without a failed send, sent and queued are together what was built |
| `Window.PacketsCarryBytes` | utp/socket.go:510-516 | the payloads of the packets built are the bytes handed to SendTo, in order |
| `Window.PacketsConsecutive` | utp/socket.go:510-519 | packets queued after the handshake carry consecutive numbers modulo 2^16 |
| `Window.ShortPackets` | utp/socket.go:510-516 | every packet built is a data packet with data and at most MSS bytes |
| `Window.EnqueueAllBuilds` | utp/socket.go:511-520 | queueing chunks builds one packet per chunk, numbered from seqNr on |
| `Window.EnqueueAllAccepts` | utp/socket.go:511-520 | and accepts their bytes, without touching what was sent or lost |
| `Window.EnqueueAllNumbers` | utp/socket.go:518-519 | the next number moves on by the number of chunks |
| `Window.ChunksCover` | utp/utils.go:79-101 | the chunks make up the buffer |
| `Window.ChunksFit` | utp/utils.go:79-101 | no chunk is empty or longer than asked for |
| `Window.Chunk` | utp/utils.go:79-101 | division and the loop over slices compute the chunks |
| `Congestion.GrowsIff` | utp/socket.go:765-766 | with the formula put right the window grows exactly below the target delay, shrinks exactly above it, and the factor is between -1 and 1 exactly up to twice the target; as written it always grows |
| `Congestion.IgnoresDelayIff` | utp/socket.go:1016-1027 | over the reals, with the formula as written or put right: a longer delay never gives a larger window, and all delays give the same one if and only if no delay and the greatest one do |
| `Congestion.SmallFlightIgnoresDelay` | utp/socket.go:1016-1027 | as written all delays give the same one, which is the largest allowed, for any window, as long as at most 56 packets are in flight |
| `Handshake.Handle` | utp/socket.go:641-698 | no packet takes the state back or changes the ids of a connection |
| `Handshake.StepKeepsIds` | utp/socket.go:641-698 | each step of the two endpoints keeps the assignment of ids |
| `Handshake.IdsAcceptedIff` | utp/socket.go:154-164 | over every run of a lossy, duplicating, reordering channel everything sent is accepted, if and only if the sending id is the receiving id or one more |
| `Handshake.WrittenIdsNeverWork` | utp/utils.go:9-17 | the ids as written never satisfy this, those of BEP 29 always do |
| `Handshake.DeliveriesOnlyAdvance` | utp/socket.go:641-698 | over every run of deliveries the state rank never decreases and ids never change after the handshake |
| `Handshake.ResetIff` | utp/socket.go:651-652 | over every run from the SYN on, a reset is sent if and only if a SYN is delivered a second time; only then can the initiator be in ResetReceived, and once connected it will be as soon as the reset arrives |
| `Handshake.RepeatedSynResets` | utp/socket.go:651-652 | a run in which a SYN delivered twice resets the connection |
| `Socket.UtpSocket.constructor` | utp/socket.go:154-187 | the initial state, with all invariants |
| `Socket.UtpSocket.Connect` | utp/socket.go:201-269 | success means Connected with the SYN counted in seqNr, or still SynSent after a SYN came back; ids and invariants are kept |
| `Socket.UtpSocket.SendSyn` | utp/socket.go:223-257 | what was last written is the SYN with the receiving id; the state is SynSent |
| `Socket.UtpSocket.CountSmaller` | utp/socket.go:434-439 | the loop counts the buffered packets with smaller numbers |
| `Socket.UtpSocket.InsertIntoBuffer` | utp/socket.go:424-450 | buffer and outcome are those of sorted insertion |
| `Socket.UtpSocket.AdvIncomingBuf` | utp/socket.go:593-604 | drops the head of the buffer and acknowledges it |
| `Socket.UtpSocket.FlushIncomingBuffer` | utp/socket.go:565-589 | state and bytes are those of the flush |
| `Socket.UtpSocket.SackBytes` | utp/socket.go:726-729 | the vector for a reply; with the repairs there always is one |
| `Socket.UtpSocket.HandleDataPacket` | utp/socket.go:716-736 | the type of the reply, and a selective acknowledgement exactly if the packet is not in order |
| `Socket.UtpSocket.HandlePacket` | utp/socket.go:621-699 | state, reply and sequence number are those of the connection's state machine; window, receive side and connection are kept through all receives it sets off; an accepted connection goes on from the SYN with whatever was buffered, that is from Fresh if and only if nothing was, and its answer carries, with the repair, the number before the first packet |
| `Socket.UtpSocket.Classify` | utp/socket.go:621-640 | the checks before the table: what is acknowledged, refused and noted |
| `Socket.UtpSocket.Dispatch` | utp/socket.go:641-698 | the table of states and packet types refines the state machine |
| `Socket.UtpSocket.HandleStatePacket` | utp/socket.go:738-838 | if nothing is received meanwhile, exactly the acknowledged prefix leaves the window, currWdw falls by the bytes newly acknowledged, and connection, queue and receive side stay as they were |
| `Socket.UtpSocket.Repair` | utp/socket.go:779-828 | without extensions nothing happens on the third acknowledgement of a number, and on every other count the packet after it is written again, if it is the first of the window and there is room |
| `Socket.UtpSocket.RepairAndAdvance` | utp/socket.go:773-837 | retransmission keeps window and byte count; then the acknowledged prefix leaves |
| `Socket.UtpSocket.ResendReported` | utp/socket.go:779-813 | going through the extensions keeps everything that retransmission keeps |
| `Socket.UtpSocket.ResendFor` | utp/socket.go:782-812 | a loss is reported exactly if three bits are set or an unset one is below the last number sent |
| `Socket.UtpSocket.Conclude` | utp/socket.go:830-837 | the congestion window is halved, down to two packets, exactly after a loss; then the window advances |
| `Socket.UtpSocket.NoteAck` | utp/socket.go:739-771 | duplicate count, last acknowledged number, and the bytes newly acknowledged; the congestion window stays put without a match |
| `Socket.UtpSocket.NewlyAcked` | utp/socket.go:747-756 | both loops find the acknowledged prefix and its bytes |
| `Socket.UtpSocket.DropFirst` | utp/socket.go:853-857 | removing packets keeps the byte count equal to the bytes of the window |
| `Socket.UtpSocket.AdvanceSendWindow` | utp/socket.go:841-862 | removes exactly the acknowledged prefix, nothing if the number is not in the window |
| `Socket.UtpSocket.UpdateCongestionWdw` | utp/socket.go:1016-1026 | the new window is that of the formula, for any delay and number of bytes, cut to [2 MSS, max(2 MSS, currWdw + MSS)] |
| `Socket.UtpSocket.ResendLostPacket` | utp/socket.go:906-928 | neither the window nor its byte count changes, except by what is received meanwhile; with room in the window the first packet with the number is written, unless the number is taken for acknowledged; without such a packet nothing happens |
| `Socket.UtpSocket.SendPacket` | utp/socket.go:865-904 | after a wait that did not time out fewer than max(2 MSS, min(cwnd, wnd)) bytes are in flight, as computed on entry; then the packet is written, unless its number is taken for acknowledged: then the call succeeds, and with room in the window nothing whatever has changed; a data packet that arrives during the wait is reassembled, and its bytes go to nobody |
| `Socket.UtpSocket.WastedBytes` | utp/socket.go:872-881 | the bytes that a waiting send wastes are those that the flush hands on for the packet that arrives |
| `Socket.UtpSocket.AwaitWindow` | utp/socket.go:872-882 | the receiving loop ends with room in the window, at the deadline, or with the error of a receive |
| `Socket.UtpSocket.HandleReceiveTimeout` | utp/socket.go:452-492 | the congestion window becomes one packet, and the first packet of the window is written again, or a FIN if there is none |
| `Socket.UtpSocket.ReadDatagram` | utp/socket.go:350-381 | what is returned is a datagram taken from the network; or the socket closes after the retries, or the error is passed on |
| `Socket.UtpSocket.ReadOnce` | utp/socket.go:360-376 | one try takes a datagram, or sends something again, or ends with an error |
| `Socket.UtpSocket.Recv` | utp/socket.go:342-417 | one receive keeps all invariants, including those of receives nested in it; the bytes returned are the last bytes handed on, and receives nested in it give none to a reader; unless two packets or more are in flight these are the only bytes handed on, and for a data packet it is one step of reassembly |
| `Socket.UtpSocket.WriteReply` | utp/socket.go:396-402 | what is written has the header of the reply; the peer reads it as this reply, with as much of the selective acknowledgement as the lowest byte of its length counts |
| `Socket.UtpSocket.Take` | utp/socket.go:391-416 | handling, answering, storing and flushing one packet keeps window, connection, provenance and the refinement of the receive side, whether or not the reply can be written; a data packet takes one step of reassembly, whatever its connection id and the state |
| `Socket.UtpSocket.Respond` | utp/socket.go:391-402 | the connection moves as the state machine says and the reply it asks for is written, or nothing; a packet that cannot be answered has been acknowledged all the same |
| `Socket.UtpSocket.Complete` | utp/socket.go:396-416 | storing and flushing is one step of reassembly, and so is leaving it because of a failed reply |
| `Socket.UtpSocket.Store` | utp/socket.go:404-414 | a packet is stored exactly if it is admitted, and then the flush follows |
| `Socket.UtpSocket.SentIsAckedAndWindow` | utp/socket.go:841-862 | what was sent is what was acknowledged followed by the window |
| `Socket.UtpSocket.WindowIsConsecutive` | utp/socket.go:505-541 | without a failed send, acknowledged + window + queue is everything built, carries the bytes handed to SendTo, and is numbered consecutively up to seqNr |
| `Socket.UtpSocket.BytesAreConserved` | utp/socket.go:505-541 | bytes handed to SendTo = acknowledged + in flight + still to be sent + dropped by failed sends, headers counted, between calls and whenever a send waits in a nested receive |
| `Socket.UtpSocket.AckIsCumulative` | utp/socket.go:841-862 | what an acknowledgement removes from the window of a socket is exactly the packets at or before it in serial order, across the wrap, if that one is in the window |
| `Socket.UtpSocket.HandedInOrder` | utp/socket.go:565-604 | what a socket that accepted a connection with nothing buffered has handed on is a prefix of its peer's stream, as long as no failed reply does harm |
| `Socket.UtpSocket.HandedInOrderDialed` | utp/socket.go:565-604 | so it is at the connecting side, if the peer counts its answer, the first number is below 2^15 and no failed reply does harm |
| `Socket.UtpSocket.QueueChunks` | utp/socket.go:511-520 | the loop enters exactly these packets into the ledger and the queue |
| `Socket.UtpSocket.AddToWindow` | utp/socket.go:536-537 | the window and its byte count grow by the packet |
| `Socket.UtpSocket.SendNext` | utp/socket.go:531-537 | the packet is written, unless its number is taken for acknowledged, and enters the window, or it is lost; only packets built by SendTo are written |
| `Socket.UtpSocket.Send` | utp/socket.go:530-541 | everything queued is sent, or exactly one packet is lost and the rest stays queued; afterwards fewer than limit + MSS bytes are in flight unless the wait timed out |
| `Socket.UtpSocket.SendTo` | utp/socket.go:505-527 | the bytes are accepted and built into packets of at most MSS bytes with consecutive numbers; success means that all packets have entered the window, and nothing has been given to a reader |
| `Socket.UtpSocket.RecvFrom` | utp/socket.go:314-340 | the bytes returned are added to those given to readers before; unless two packets or more are in flight no others are handed on, so that they continue those returned before, none skipped and none repeated; no bytes means the connection is closed |
| `Socket.UtpSocket.ReadIsHandedOnIff` | utp/socket.go:314-340 | in any state, what RecvFrom has returned is all that was handed on if and only if nothing was wasted, and otherwise that with bytes left out |
| `Socket.UtpSocket.NothingHeardYet` | utp/socket.go:404-414 | a socket without a connection has nothing buffered as long as no data packet with a new number has arrived |
| `Socket.UtpSocket.ReceivingKeepsJournal` | utp/socket.go:342-417 | a receive, with everything it sets off, leaves queue, numbers and ledger in agreement |
| `Socket.UtpSocket.FlushWindow` | utp/socket.go:607-616 | success means everything in the window was acknowledged |
| `Socket.UtpSocket.SendFin` | utp/socket.go:286-297 | the state goes back if and only if the FIN is written after the peer has closed or reset the connection |
| `Socket.UtpSocket.Close` | utp/socket.go:278-307 | success means a FIN was written and the connection is closed with an empty window, or that there was nothing to close; after a reset with nothing in flight and nothing more to read the state ends as FinSent if the FIN is written; nothing is given to a reader |
| `Socket.ReplyIsConveyed` | utp/socket.go:396-402 | what becomes of a reply on the wire, for vectors of any length; it is read in full if and only if its vector is shorter than 256 bytes or is refused by setSack |
| `Socket.WaitingSendWastes` | utp/socket.go:872-881 | a send that waits on a connection just made, with two full packets in flight, takes the next packet from the network, and its byte goes to nobody |
| `Socket.DueIsTakenOnce` | utp/socket.go:404-414 | a packet that is due is handed on, and neither a read nor its repetition brings it back |
| `EndToEnd.NumbersMatch` | utp/socket.go:511-519 | packet i of a connection is chunk i of the stream, wherever its number wraps |
| `EndToEnd.TransferIsPrefix` | utp/socket.go:505-604 | what is read is a prefix of what was handed to SendTo in any number of calls, whatever is lost, repeated, reordered or dropped, and whichever replies fail without harm |
| `EndToEnd.TransferIsComplete` | utp/socket.go:505-604 | once every packet has arrived and been answered, and as long as the replies that failed were prompt, enough reads return exactly what was handed to SendTo |
| `EndToEnd.BufferArrives` | utp/socket.go:505-604 | for every buffer: chunking, packets, wire format and reassembly give back a beginning of that buffer, if no failed reply did harm, and the whole of it once all packets have arrived, if the replies that failed were prompt |
| `EndToEnd.WrittenTransfersNothing` | utp/packet.go:94-97 | as written no byte ever arrives |
| `EndToEnd.SocketsTransfer` | utp/socket.go:314-604 | for two sockets in any state after a handshake in which the receiver accepted with nothing buffered, joined by what one has written and the other has taken: as long as no failed reply does harm, what the receiver has handed on is a prefix of what the sender was given, and so is what was read if nothing was wasted |
| `EndToEnd.SocketsTransferBack` | utp/socket.go:314-604 | the same from the accepting to the connecting side, if the answer is counted and its number is below 2^15 - 1 |
| `EndToEnd.SocketsComplete` | utp/socket.go:314-604 | for two such sockets: once every packet built has arrived at the accepting one, with prompt failed replies only, and enough has been read, it has handed on exactly what the sender was given, and that is what was read if and only if nothing was wasted |
| `EndToEnd.SocketsCompleteBack` | utp/socket.go:314-604 | the same from the accepting to the connecting side, if the answer is counted and all numbers are below 2^15 |
| `EndToEnd.NothingUnackedIsSkippedIff` | utp/socket.go:888-895 | nothing in the window or the queue of a socket without failed sends is taken for acknowledged, whatever number it has seen acknowledged last, if and only if the last of these packets is at most 2^15 ahead of that number, counting from the first; if that is the number of packet k, the first is ahead by one more than the packets acknowledged after it |
| `Delay.GroupsPartition` | utp/socket.go:957-978 | every sample belongs to exactly one rollover group, in order |
| `Delay.RolledMinima` | utp/socket.go:957-978 | base delays that are the minima of the last ten groups stay so after any sample |
| `Delay.PoppingIsFiltering` | utp/socket.go:984-987 | popping from the front equals filtering by age if and only if no old sample is behind a young one |
| `Delay.CurrentSurvives` | utp/socket.go:982-995 | if time does not go back, the current delays are the samples of the whole log that were not too old at any later sample, under the limit in force at each |
| `Delay.DelayHistory.constructor` | utp/socket.go:179-182 | both histories start empty |
| `Delay.DelayHistory.UpdateBaseDelay` | utp/socket.go:957-978 | a new minimum after a rollover, with the oldest of ten dropped, or the smaller one for the current group |
| `Delay.DelayHistory.UpdateCurrDelay` | utp/socket.go:982-995 | old samples are popped and the new one is appended |
| `Delay.DelayHistory.Update` | utp/socket.go:758-762 | both histories keep refining the full log of samples, with the round-trip time of each |
| `Delay.DelayHistory.MinBaseDelay` | utp/socket.go:1070-1078 | the result is the minimum of all samples in the last ten groups; as written if and only if some base delay is not positive |
| `Parsec.OneByteParsers` | parsec/parsec.go:87-101 | Tag and Digit succeed exactly on the byte they look for, and keep the law of remainders |
| `Parsec.TakeWhile` | parsec/parsec.go:440-474 | the loop takes the longest prefix that satisfies the predicate |
| `Parsec.TakeWhileObeys` | parsec/parsec.go:454-458 | the law holds as written unless all of a non-empty input satisfies the predicate |
| `Parsec.TakeWhileTakes` | parsec/parsec.go:440-474 | result and remainder make up the input, and the result satisfies the predicate |
| `Parsec.TakeTill` | parsec/parsec.go:370-413 | the loop takes the bytes before the first that satisfies the predicate, which must be there and not at once |
| `Parsec.TakeTillObeys` | parsec/parsec.go:370-413 | success leaves a suffix, failure the whole input |
| `Parsec.StrN` | parsec/parsec.go:279-362 | the loop takes n bytes; its branch for longer characters is not reachable |
| `Parsec.StrNLaw` | parsec/parsec.go:279-362 | the law holds exactly for n of at least 1, and then exactly n bytes are taken |
| `Parsec.Number` | parsec/parsec.go:623-681 | the loop reads an optional sign and all digits, with 64-bit wrap-around |
| `Parsec.WrittenNumber` | parsec/parsec.go:664-671 | code and comment agree exactly on numbers that are not zero and on failures with input left |
| `Parsec.NumberObeys` | parsec/parsec.go:623-681 | success leaves a suffix, failure the whole input |
| `Parsec.WrapStep` | parsec/parsec.go:653 | wrapping at each digit is wrapping once |
| `Parsec.ThenObeys` | parsec/parsec.go:808-827 | Then keeps the law, and succeeds exactly if both parsers do with input between them |
| `Parsec.ThenDiscardObeys` | parsec/parsec.go:831-851 | ThenDiscard keeps the law; as written its remainder is right exactly if the second parser consumes nothing |
| `Parsec.AltObeys` | parsec/parsec.go:896-919 | an alternative keeps the law, and is the first parser that succeeds |
| `Parsec.GuardedWhileObeys` | parsec/parsec.go:937-976 | keeps the law; as written unless the guarded bytes run up to the end of the input |
| `Parsec.GuardedWhileIsGuarded` | parsec/parsec.go:937-976 | the result stands between its guards and satisfies the predicate |
| `Parsec.GuardedIsFound` | parsec/parsec.go:937-976 | what stands between the guards is found |
| `Parsec.RepeatMany0` | parsec/parsec.go:738-754 | the loop terminates for a strict parser and computes the repetition |
| `Parsec.Many0Greedy` | parsec/parsec.go:735-754 | Many0 succeeds with a chain of results that cannot be continued |
| `Parsec.Many0Longest` | parsec/parsec.go:735-754 | every chain of results is a beginning of that of Many0 |
| `Parsec.RepeatFoldMany0` | parsec/parsec.go:978-992 | the loop terminates for a strict parser and computes the fold |
| `Parsec.FoldWithAppend` | parsec/parsec.go:978-992 | folding with append equals Many0 |
| `Parsec.Count` | parsec/parsec.go:789-802 | n results or a failure with the whole input; as written the remainder is the whole input |
| `Parsec.CountIsChain` | parsec/parsec.go:789-802 | n repetitions succeed exactly if there is a chain of n results |
| `Bencode.StrObeys` | formats/bencode_parser.go:54-92 | the string parser keeps the law and consumes at least one byte |
| `Bencode.IntObeys` | formats/bencode_parser.go:94-120 | the integer parser keeps the law and consumes at least one byte |
| `Bencode.ListObeys` | formats/bencode_parser.go:123-189 | the list parser keeps the law at any depth of nesting; it terminates on the remaining input |
| `Bencode.DictObeys` | formats/bencode_parser.go:193-269 | so does the dictionary parser |
| `Bencode.ManyDictsIsMany0` | formats/bencode_parser.go:129-132 | the loop over dictionaries is Many0 of the dictionary parser |
| `Bencode.DecimalValue` | formats/benc_enc.go:35-44 | decimal digits have the value they were made from |
| `Bencode.IntRoundTrip` | formats/bencode_parser.go:94-120 | an integer is read back if and only if it is not negative |
| `Bencode.StrRoundTrip` | formats/bencode_parser.go:54-92 | a byte string is read back; as written if and only if it is not empty |
| `Bencode.ConstructibleIff` | formats/bencode_parser.go:123-209 | as written the parser for a kind can be constructed if and only if that is integers or strings |
| `Bencode.RoundTrip` | formats/bencode_parser.go:54-269 | each parser reads a printed tree, followed by anything, back to the tree and exactly what follows, if and only if the tree is of its kind and documented: non-negative integers, strings, lists of one kind, dictionaries |
| `Bencode.ListBodyReads` | formats/bencode_parser.go:123-189 | a printed list is read back exactly if its elements are documented and of one kind |
| `Bencode.EntriesRead` | formats/bencode_parser.go:213-266 | printed entries with distinct keys are read back exactly if all values are documented |
| `Bencode.WrittenRoundTrip` | formats/bencode_parser.go:54-269 | printer and parsers as written: exactly the non-negative integers and the non-empty strings survive, and nothing but integers and strings has a parser |
| `Bencode.WrittenPrintIff` | formats/benc_enc.go:33-104 | what is printed as written and read by the repaired parsers comes back, with what follows, if and only if it is a non-negative integer, a string or the empty dictionary |
| `Bencode.WrittenReads` | formats/benc_enc.go:58-104 | what is printed as written is read, if at all, up to the stray space, and a dictionary with entries comes back with fewer |
| `Bencode.Marshall` | formats/benc_enc.go:33-104 | what is written piece by piece is the printed form of the tree |
| `Bencode.ParseDict` | formats/bencode_parser.go:200-268 | the loop over entries computes the dictionary parser |
| `Bencode.ParseLists` | formats/bencode_parser.go:152-186 | the loop over inner lists computes their parser |

## Left out

- Socket.UtpSocket.UpdateCongestionWdw: computes over the reals; how floating point rounds is not modelled, and neither is the conversion of a number that does not fit the counter. The queuing delay is arbitrary, so the socket owns no `Delay.DelayHistory`.
- Socket.UtpSocket.SendPacket: says nothing about how long the wait takes; its end is arbitrary, because the clock is not modelled.
- Socket.WaitingSendWastes: says nothing if a write fails, or if the time is up before the packet arrives.
- Message.StreamIsRead: leaves out bitfields and pieces of 2^32 - 1 bytes and more; how those are read is `Message.BigFrameIsCut`, and that they never come back is in `Message.StreamRoundTrip`.
- Extensions.NextTurn: what lies beyond the end of a packet is not modelled; the source slices up to the capacity of its buffer, here that is the outcome Beyond.
- Assembly.AssemblyIsScheduleIndependent: a write is any sequence of partial writes in order; a write that fails is not modelled.
- Sockets, deadlines, dialing, logging and the clock: the network is a script of arrivals, a write may fail at any time, and timestamps are arbitrary.
- Round-trip time, congestion timeout and the moving average of delays (utp/socket.go:1032-1067): no modelled bound depends on them.
- Aliasing of packet bytes: packets in buffers and windows are values. A packet that is sent again gets new timestamps in place, which the values do not carry.
- `BencInput`, the mutable reader behind the parsers: the input is an immutable sequence, as the comment on its interface has it.
- The order of a Go map: the entries of a dictionary keep the order in which they are printed or first read.
- Repetition of a parser that consumes nothing: the loop of the source runs for ever; the functions stop, and the methods ask for a strict parser.
- AndThen, Many1, FoldMany1, Chars, Terminated, Preceded and the other parsers that bencode does not use: only easy members.
- Reflection: struct decoding and the dispatch of marshall are replaced by a datatype of values.
- Tracker client, peer handshake, SHA-1, file opening, the command line, and the goroutines that hand out pieces to peers.
