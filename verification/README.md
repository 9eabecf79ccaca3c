# Verified engines of the brtGHost bot and its server

A Dafny model of the stateful and arithmetic parts of a Warcraft III host bot
(`ghost/`) and its companion server (`brtServer/`), with proofs of what they keep.
Each part is stated twice: as the program does it, with its loops, fields and
fixed-width arithmetic, and as a simple definition; the first is proved to be the
second, and the properties are proved of the second for all inputs and all runs.
Constants, layouts and orders, which such proofs alone would not notice if they were
wrong on both sides, are tied to published values and to the bytes themselves.

| part | files |
|---|---|
| bytes, packet framing, sockets | Sequences, Bytes, Framing, Sockets, ClientQueue, ServerPackets |
| GProxy++ reliable reconnect | GpsProtocol, GamePlayer, ReliableLink, ReliableDelivery, ServerSide |
| SHA-1, MD5, CRC-32 | BlockHash, Sha1Spec, Sha1, Md5Spec, Md5, Crc32Spec, Crc32 |
| their published test values | Sha1Example, Md5Example, Crc32Example |
| Redis client | Resp, RedisReader, RedisReply, RespWire, RedisCluster, RedisMultiKey |
| battle.net connection | BattleNet, Throttle, Names, BanIndex |
| game announcements and the server's mirror of bot games | StatString, GameInfo, BotReports, BotGames |
| text replacement | Replace |

`dafny verify dfyconfig.toml` checks the whole project.

## Environment

What the operating system, the network and other processes do is a parameter:

- TCP: a connection carries bytes in order; any number of them arrive at a time;
  a break loses any tail of what is in flight. A `recv` after a peek returns the
  peeked bytes. Clock readings never go back.
- GProxy++: the peer is the mirror image of the server side. A reconnect is
  accepted only when both sides buffer, and by then everything sent before
  buffering began has arrived (`ghost/gameplayer.cpp:783-784`). A client sends no
  game packet behind its join request before the player object exists, as the
  comment at `ghost/gameplayer.cpp:322-323` has it; `ServerSide.Join` says what
  this is needed for.
- Redis: a connection answers its requests in order. What a command does is an
  arbitrary function of a server's state, and what it says is any status, error,
  number, bulk or list of bulks, missing ones included, that the protocol can carry:
  single-line texts, numbers and sizes within a long. MGET and SINTER are assumed
  to answer as their documentation says.

## Where the code falls short of what one would expect

Each of these is proved, with a concrete input or for the whole failing family:

- `GamePlayer`: trimming compares 32-bit counts without regard to wrap-around
  (`ReliableDelivery.TrimSafeExact`, `ReliableDelivery.ReconnectExact`,
  `ReliableDelivery.ReplayExact`, `ReliableDelivery.ReplayWraps`).
- `CGamePlayer` drops packets queued behind the join request uncounted
  (`ServerSide.Join`, `ServerSide.DiscardedAreRepeated`).
- `ExtractBotsPackets` refuses a stream that arrives in two reads
  (`Framing.BotsChunkingMatters`, `Framing.BotsSplitExact`).
- A client erased for a malformed packet leaves the packets in front of it in the
  queue, and the next client that stays is taken for their sender
  (`ClientQueue.OwnExact`, `ClientQueue.HandledForAnother`).
- A game name with a zero byte makes an announcement look like a saved game
  (`GameInfo.AnnouncementRecovered`).
- `UpdateMapRemoveBan` compares a signed `char` with an unsigned index, so letters
  from 128 up lose their entry (`BanIndex.RemoveBanExact`, `BanIndex.HighLetterLost`).
- `AddBan` under a letter without an entry leaves another letter's entry wrong
  (`BanIndex.AddBanExact`), and `UpdateMap` of an empty list builds 255 entries
  instead of 256 (`BanIndex.UpdateMapExact`).
- After a gap of 2^32 ms or more a due packet may be held back (`Throttle.DueExactly`).
- `recv_generic_reply_` keeps a 64-bit integer reply in an `int` (`RedisReply.IntRoundTrip`).
- It cuts five bytes off an error line whatever its code, so that "-LOADING" is
  garbled (`RedisReply.ErrorTextExact`, `RedisReply.LoadingGarbled`).
- A missing list, as a blocking pop that times out is answered, makes a batch throw
  and leaves later replies on the connections, where the next commands take them
  for their own (`RedisCluster.Cluster.Exec`, `RedisCluster.Cluster.ExecOne`); an
  error in reply to `sinter` does the same (`RedisMultiKey.SInter`).
- `UTIL_Replace`'s guard does not prevent an infinite loop (`Replace.GuardNotEnough`).
- The comment on `sinter` says all keys must be on one server; the code, which the
  model follows, handles any number of servers (`RedisMultiKey.SInter`).

## Model

| member | source | states |
|---|---|---|
| ReliableDelivery.ExactlyOnceInOrder | ghost/gameplayer.cpp:775-825 | In every run of sends, ACKs, partial deliveries, breaks, reconnects and stale reconnects in which no trim wraps, however long: each side holds a prefix of what the other sent, nothing lost, repeated or reordered. Not wrapping is a condition on each trim: an ACK or a stale count that is no smaller than the buffer's start, or not larger modulo 2^32; at a replay, buffer's start and count between the same multiples of 2^32 |
| ReliableDelivery.CountersAndBuffers | ghost/gameplayer.cpp:562-597 | In every run whatsoever, wrapping or not: both counters of either side are the numbers of packets sent and queued modulo 2^32, and the replay buffer is exactly an end of what was sent |
| ReliableDelivery.ReconnectExact | ghost/gameplayer.cpp:795-809 | In any state such a run reaches, a reconnect hands the peer precisely what it lacks if and only if the trim it makes does not wrap; the peer's own replay likewise |
| ReliableDelivery.TrimSafeExact | ghost/gameplayer.cpp:752-767 | A trim to a true count removes nothing the other side may still lack if and only if it is one that does not wrap |
| ReliableDelivery.ExactlyOnceWhenSmall | ghost/gameplayer.cpp:775-825 | With fewer than 2^32 packets each way no trim wraps, the counters are the numbers themselves, and the buffer is the suffix of the history that starts at sent minus size |
| ReliableDelivery.SmallNeverWraps | ghost/gameplayer.cpp:752-767 | Fewer than 2^32 packets each way is enough for a run not to wrap |
| ReliableDelivery.RecoveryCompletes | ghost/gameplayer.cpp:789-825 | From any state that satisfies the invariant, with both sides buffering and no wrap at the two replays, a drop, a reconnect, the answer, the replay both ways and draining leave nothing missing on either side, whatever died with the old connection |
| ReliableDelivery.DrainedIsComplete | ghost/gameplayer.cpp:775-787 | In such a run, whenever an open path has nothing in flight the reader holds the whole history |
| ReliableDelivery.JoinCounted | ghost/gameplayer.cpp:334-339 | The receive counter that starts at one is one plus the packets queued after the join request, modulo 2^32, in every run of any length |
| ReliableDelivery.StepKeepsInv | ghost/gameplayer.cpp:746-825 | Every one of the sixteen kinds of step whose trims do not wrap keeps the protocol invariant |
| ReliableDelivery.RunKeepsInv | ghost/gameplayer.cpp:746-825 | So does every run of such steps |
| ReliableDelivery.ReplayExact | ghost/gameplayer.cpp:795-809 | With wrapping counters: the trimmed buffer continues the peer's prefix to the whole history if and only if the peer is not behind the buffer and no multiple of 2^32 lies between the buffer's start and the peer's count |
| ReliableDelivery.ReplayWraps | ghost/gameplayer.cpp:795-809 | The wrap is real: at packet 2^32 a peer that has everything is sent a packet again |
| ReliableDelivery.TrimSuffix | ghost/gameplayer.cpp:752-767 | With the buffer's start and n between the same multiples of 2^32, a trim to n leaves what comes after n or after the old start, whichever is later |
| ReliableDelivery.AcksRelease | ghost/gameplayer.cpp:750-767 | With fewer than 2^32 packets: whatever packets arrive, the buffer afterwards holds what comes behind the largest count their ACKs report, unless it began there or later already |
| ReliableDelivery.FlowTake | ghost/gameplayer.cpp:555-604 | However many bytes of the stream arrive at once, queued packets followed by packets in flight stay the same sequence |
| ReliableDelivery.FlowCut | ghost/gameplayer.cpp:789-793 | Losing any tail of what is in flight, partial packets included, leaves a prefix of the history |
| ReliableDelivery.AnswerRead | ghost/gameplayer.cpp:793 | The count a returning peer reads from the answer is the number of its packets the server holds, modulo 2^32 |
| ServerSide.Join | ghost/gameplayer.cpp:321-339 | A player object built from a potential player starts a run if and only if no game packet is queued behind the join request and no byte is unread; its receive counter counts all packets sent so far exactly when the number queued behind is a multiple of 2^32, zero above all |
| ServerSide.DiscardedAreRepeated | ghost/gameplayer.cpp:320-325 | Otherwise the peer's next replay is as long as the number of discarded packets and repeats the last packets the server already holds |
| ServerSide.SendStep | ghost/gameplayer.cpp:775-787 | Send takes the server's send step of the link, and puts just that packet on the socket |
| ServerSide.AckStep | ghost/gameplayer.cpp:519-525 | The periodic ACK takes the acknowledge step and puts just the link's bytes on the socket |
| ServerSide.ReceiveStep | ghost/gameplayer.cpp:555-604 | Extraction and processing of arrived bytes take the delivery step, then one control step per GPS_INIT answered, then the buffering step if that turned GProxy++ on in a loaded game; what the game is handed is what the link counts as delivered; the socket gets one answer per GPS_INIT, with its fields in place, and the link puts just those bytes in front of the peer |
| ServerSide.InitPacketIsInert | ghost/gpsprotocol.cpp:83-96 | The answer to a GPS_INIT is a frame that is neither a game packet nor an ACK, with port, player number, key and empty-action count where a client looks for them |
| GpsProtocol.InitLayout | ghost/gpsprotocol.cpp:83-96 | The answer is twelve bytes: 248, 1, the size 12, the port at 4, the player number at 6, the key at 7 and the empty-action count at 11, numbers least significant byte first |
| GpsProtocol.KindsAreBytes | ghost/gameplayer.cpp:729-750 | An ACK is recognised by 248, 3 and eight bytes in all, a GPS_INIT by 248 and 1 |
| ServerSide.GameLoaded | ghost/gameplayer.cpp:783-784 | When the game becomes loaded the object takes the buffering step, if it uses GProxy++ |
| ServerSide.ReconnectStep | ghost/gameplayer.cpp:789-825 | EventGProxyReconnect takes the reconnect step; the bytes on the new socket are the ones the link puts in front of the peer |
| ServerSide.StaleReconnectStep | ghost/gameplayer.cpp:789-825 | A reconnect whose socket is already dead takes the stale step: the old bytes are gone and the buffer is trimmed |
| GamePlayer.PotentialPlayer.ExtractPackets | ghost/gameplayer.cpp:158-203 | The loop queues exactly the frames of the receive buffer, leaves the rest, and flags an error exactly on a malformed front |
| GamePlayer.GamePlayer.constructor | ghost/gameplayer.cpp:321-339 | The counters of a joined player start at zero sent and one received |
| GamePlayer.GamePlayer.ExtractPackets | ghost/gameplayer.cpp:555-604 | As for the potential player, and each queued game packet is counted once, modulo 2^32 |
| GamePlayer.GamePlayer.ProcessPackets | ghost/gameplayer.cpp:746-768 | Every queued packet is taken off: game packets dispatched in order, the buffer trimmed by each ACK in turn, GPS_INIT answered with port, player number, key and count in their places |
| GamePlayer.GamePlayer.Unqueue | ghost/gameplayer.cpp:752-767 | The unqueueing loop removes exactly what the reported count confirms, never more than there is |
| GamePlayer.GamePlayer.Send | ghost/gameplayer.cpp:775-787 | One more sent, kept for replay exactly when GProxy++ is on and the game loaded, and written to the socket |
| GamePlayer.GamePlayer.EventGProxyReconnect | ghost/gameplayer.cpp:789-825 | The new socket carries the receive count followed by the whole trimmed buffer, which is kept |
| GpsProtocol.AckRoundTrip | ghost/gpsprotocol.cpp:110-120 | An ACK is one frame that begins 248, 3, 8, 0, recognised as an ACK, with its count intact |
| GpsProtocol.ReconnectRoundTrip | ghost/gpsprotocol.cpp:98-108 | The reconnect answer is eight bytes that begin 248, 2, 8, 0, with its count intact, and is never taken for an ACK |
| Framing.ChunkingIrrelevant | ghost/gameplayer.cpp:158-203 | However a stream is split, the packets queued, the leftover bytes and the error outcome over all calls are those of one call on the whole |
| Framing.ExtractSplit | ghost/bnet.cpp:1070-1114 | Two calls on two parts of a stream do what one call on the whole does, for any set of accepted headers |
| Framing.ExtractConserves | brtServer/server.cpp:222-268 | Extracted packets and leftover make up the buffer byte for byte |
| Framing.ExtractSound | ghost/gameprotocol.cpp:950-968 | Every extracted packet has an accepted header and would pass ValidateLength; the leftover never starts with a complete packet and tells the outcome: a first byte that is no header, a length field below four, or the front part of a packet |
| Framing.HeaderBytes | brtServer/server.cpp:174-268 | The first bytes accepted: 247 and 248 from players, 255 from battle.net, 16 and 247 from clients, these two and 240 from bots |
| Framing.ExtractConcat | ghost/gameprotocol.cpp:933-948 | Extracting any concatenation of well-formed packets gives back just those packets |
| Framing.StampMakesFrame | ghost/gameprotocol.cpp:933-948 | AssignLength makes a frame exactly of buffers of 4 to 65535 bytes with an accepted header and touches only the length field |
| Framing.AssignLength | ghost/gameprotocol.cpp:933-948 | In place: succeeds exactly for sizes 4 to 65535 and then writes the size into bytes 2 and 3 |
| Framing.ValidateLength | ghost/gameprotocol.cpp:950-968 | True exactly when the size is in range and equals the length field |
| Framing.BotsChunkingMatters | brtServer/server.cpp:199-204 | A stream the bot-side loop accepts in one read is refused in two |
| Framing.BotsSplitExact | brtServer/server.cpp:174-220 | However a stream is cut into reads, all of them are accepted if and only if each ends less than four bytes into a packet, the whole being acceptable up to there |
| BattleNet.Connection.ExtractPackets | ghost/bnet.cpp:1070-1114 | The battle.net loop is one extraction with header 255; a malformed front disconnects |
| ServerPackets.Server.ExtractClientPackets | brtServer/server.cpp:222-268 | The client loop is one extraction; it fails exactly on a malformed front |
| ServerPackets.Server.ExtractBotsPackets | brtServer/server.cpp:174-220 | The bot loop is one extraction; it also fails on an incomplete packet |
| ServerPackets.Server.ProcessClientPackets | brtServer/server.cpp:611-618 | Everything in the queue, whoever sent it, is handled for the user visited, in order, and the queue is empty |
| ServerPackets.Server.VisitUser | brtServer/server.cpp:1199-1236 | A turn in the pass is a visit of the queue model: extract, erase on a malformed packet and keep the queue, process otherwise; a user who is gone is erased before anything is read |
| ServerPackets.Server.Pass | brtServer/server.cpp:1199-1237 | One pass over the user list, erasing included, is the run of its visits in list order |
| ServerPackets.Server.Accept | brtServer/server.cpp:1164-1187 | A new connection joins at the end of the list |
| ClientQueue.OwnExact | brtServer/server.cpp:1225-1237 | From any state, over any number of passes: every packet is handled for its sender if and only if no user who is erased with packets in front of the malformed one is followed by a user who stays, and, when packets of erased users are in the queue at the start, no user stays |
| ClientQueue.HandledForAnother | brtServer/server.cpp:1225-1237 | It does go wrong: one packet and four zero bytes from client 1, nothing from client 2, and the packet is handled for client 2 |
| ClientQueue.RunConserves | brtServer/server.cpp:222-268 | For whomever they are handled, the packets of a client that are handled or queued are, in order, those of one extraction from all that was read from it, and what is unread is its leftover |
| ClientQueue.ClientsIndependent | brtServer/server.cpp:1225-1237 | However turns, arrivals, joins and ends of many clients interleave and wherever TCP cuts: nothing is lost or doubled, and in runs that meet that condition, and in no others, what is handled for each client is one extraction from all it sent |
| Sha1.CSha1.Transform | brtServer/sha1.cpp:47-94 | The unrolled rounds with rotated registers and the 16-word in-place schedule compute the 80-word, 80-step compression of FIPS PUB 180-1 section 7, the one of Sha1Example, for every block and state |
| Sha1Example.AbcDigest | brtServer/sha1.cpp:47-153 | The digest of "abc" is the one published in FIPS PUB 180-1, Appendix A, by way of all 80 schedule words and all 80 states of the registers |
| Sha1Example.ConstantsAreRoots | brtServer/sha1.h:53-57 | In each of the four rounds the constant is the integer part of 2^30 times the square root of 2, 3, 5 and 10 |
| Sha1Spec.LengthValue | brtServer/sha1.cpp:129-131 | The eight bytes behind the padding are the digits of 8 times the length modulo 2^64 in base 256, most significant first |
| BlockHash.DigitsSum | brtServer/sha1.cpp:129-131 | Shifts and masks give the four digits of a word in base 256 |
| Sha1.CSha1.Update | brtServer/sha1.cpp:97-121 | State, two-word counter and buffer describe everything fed so far: the fold over complete blocks, 8 times the length mod 2^64, and the tail |
| Sha1.CSha1.Final | brtServer/sha1.cpp:124-153 | The digest is that of FIPS PUB 180-1 sections 4 and 7 of everything fed; then counter, buffer and state are wiped, and the state is left as one compression of zeros |
| Sha1.CSha1.Pad | brtServer/sha1.cpp:135-136 | The one-zero-byte-at-a-time loop ends, at 56 mod 64, having fed the standard's padding |
| Sha1.CSha1.Reset | brtServer/sha1.cpp:34-45 | Whatever the object did before, it holds the empty message |
| Sha1.Sha1 | brtServer/util.cpp:33-45 | The shared-object wrapper gives the digest of its input from any state earlier calls left |
| Sha1.Sha1InChunks | brtServer/sha1.cpp:97-153 | Reset, any chunks, Final: the digest of the chunks joined |
| Sha1.ShaBlk | brtServer/sha1.h:49-50 | The slot overwritten in step i is word i of the 80-word schedule, and the window of the last 16 words slides |
| Sha1.ShaBlk0 | brtServer/sha1.h:45-46 | In the first 16 steps the slot read in host order becomes the big-endian input word |
| Sha1.R0 | brtServer/sha1.h:53 | Round macro: from the state after i steps, registers rotated by name, to that after i + 1 |
| Sha1.R1 | brtServer/sha1.h:54 | The same for steps 16 to 19 |
| Sha1.R2 | brtServer/sha1.h:55 | The same for steps 20 to 39 |
| Sha1.R3 | brtServer/sha1.h:56 | The same for steps 40 to 59 |
| Sha1.R4 | brtServer/sha1.h:57 | The same for steps 60 to 79 |
| Sha1.Majority | brtServer/sha1.h:56 | The macro's form of the majority function is the standard's |
| Sha1.PositionTest | brtServer/sha1.cpp:135 | The bitwise and with 504, compared to 448, on the low counter word tells exactly a position of 56 mod 64 |
| BlockHash.AbsorbAppend | brtServer/sha1.cpp:97-121 | Hashing in two parts cut at a block boundary is hashing the whole |
| BlockHash.CountUpCounts | brtServer/sha1.cpp:103-105 | The counter update with its carry test adds 8 times the length modulo 2^64 |
| BlockHash.And504 | brtServer/sha1.cpp:135 | The bitwise and with 504, digit by digit, is eight times the low six bits of the byte count |
| BlockHash.And63 | brtServer/sha1.cpp:101 | The bitwise and with 63 is the position in the buffer |
| BlockHash.PaddingStops | brtServer/sha1.cpp:135-136 | The padding loop passes no earlier point congruent to 56 mod 64 |
| Md5.Md5.Transform | brtServer/md5.cpp:161-245 | The 64 unrolled calls are the 64 steps of RFC 1321 section 3.4, registers, indices, shifts and constants included, as they are tied down in Md5Example |
| Md5Example.AlphanumericDigest | brtServer/md5.cpp:161-330 | The digest of the 62 letters and digits, two blocks, is the one published in RFC 1321, section A.5, by way of all words and all 128 states of the registers |
| Md5Spec.LengthValue | brtServer/md5.cpp:307-309 | The eight bytes behind the padding are the digits of 8 times the length modulo 2^64 in base 256, least significant first |
| Md5.Md5.Update | brtServer/md5.cpp:251-284 | As for SHA-1: state, counter with carry and buffer describe everything fed |
| Md5.Md5.Finalize | brtServer/md5.cpp:298-330 | The digest of RFC 1321 sections 3.1 to 3.5 of everything fed; a second call changes nothing |
| Md5.Md5InChunks | brtServer/md5.cpp:251-330 | Any chunks, then finalize: the digest of the chunks joined |
| Md5.Md5.OfString | brtServer/md5.cpp:111-117 | The shortcut constructor digests its text |
| Md5.Decode | brtServer/md5.cpp:137-143 | Sixteen little-endian words of a block |
| Md5.Encode | brtServer/md5.cpp:148-156 | Words written out little-endian |
| Md5.WordRoundTrip | brtServer/md5.cpp:137-156 | Decoding the four bytes of a word gives the word |
| Md5.FF | brtServer/md5.cpp:84-86 | Round macro: one step of round 1 |
| Md5.GG | brtServer/md5.cpp:88-90 | One step of round 2 |
| Md5.HH | brtServer/md5.cpp:92-94 | One step of round 3 |
| Md5.II | brtServer/md5.cpp:96-98 | One step of round 4 |
| Md5.PaddingPrefix | brtServer/md5.cpp:300-317 | The padding lengths 56 or 120 minus the position give a multiple of 64 in the end |
| Crc32.EntryIsShifts | ghost/crc32.cpp:6-14 | Reflect, eight left shifts with the polynomial and reflect again equal eight right shifts with the reflected polynomial, for every byte |
| Crc32.CCrc32.Initialize | ghost/crc32.cpp:4-15 | Every table entry is that value |
| Crc32.CCrc32.Reflect | ghost/crc32.cpp:17-30 | The loop mirrors the low bits |
| Crc32.MirrorIsReversed | ghost/crc32.cpp:17-30 | Mirroring the low n bits is reversing the word and shifting it down, for every n up to 32 |
| Crc32.CCrc32.PartialCrc | ghost/crc32.cpp:39-43 | The table-driven loop is the bit-at-a-time CRC of RFC 1952 section 8 from any register |
| Crc32.CCrc32.FullCrc | ghost/crc32.cpp:32-37 | The CRC-32 of the bytes |
| Crc32Example.CheckValue | ghost/crc32.cpp:4-43 | The CRC of "123456789" is 0xCBF43926, the value by which this CRC is told from others |
| Crc32.LookupIsByte | ghost/crc32.cpp:41-42 | One table lookup is one byte of the bitwise definition |
| Crc32Spec.UpdateConcat | ghost/crc32.cpp:39-43 | Running the register over a then b is running it over a and b joined |
| Crc32Spec.BurstDetected | ghost/crc32.cpp:32-43 | Two messages of equal length that differ only inside one window of at most four bytes never have the same CRC |
| Crc32Spec.ShiftInjective | ghost/crc32.cpp:11 | One step of the register loses nothing |
| Crc32Spec.WindowState | ghost/crc32.cpp:39-43 | Up to four bytes act on the register as one exclusive-or followed by shifts |
| Resp.CommandRoundTrip | brtServer/redisclient.h:255-269 | Parsing a printed command, whatever follows it, gives its arguments, arbitrary bytes, and consumes exactly its bytes |
| RespWire.RequestWritten | brtServer/redisclient.h:255-269 | "GET k" is sent as *2, $3, GET, $1, k, each with carriage return and newline |
| RespWire.NumberWritten | brtServer/redisclient.h:255-269 | A number is written in decimal, the most significant digit first: 1024 |
| Resp.PipelineRoundTrip | brtServer/redisclient.h:255-269 | Any concatenation of printed commands is parsed back command by command |
| Resp.ParseDigits | brtServer/redisclient.h:2272 | A printed length is cast back to itself |
| Resp.ReadLineOf | brtServer/redisclient.h:2527-2577 | A line without newline inside is read back without its line break |
| RespWire.CastExact | brtServer/redisclient.h:2272 | A decimal number, signed or not, is cast to its value if and only if that fits in 64 bits |
| RespWire.JunkRefused | brtServer/redisclient.h:2272 | Anything without digits, or with another byte among them, is refused |
| RespWire.LineRead | brtServer/redisclient.h:2527-2577 | A line ends at the first newline, whatever stands in front of it, and loses all line-break bytes at its end |
| RespWire.RtrimExact | brtServer/redisclient.h:2574-2576 | What is cut off a line's end is line-break bytes, all of them |
| RedisReader.ReadLine | brtServer/redisclient.h:2527-2577 | Whatever sizes the peeks return, the line is the one at the front of the stream and only it is consumed |
| RedisReader.ReadN | brtServer/redisclient.h:2446-2465 | Exactly n bytes, or closed when there are fewer, however they arrive |
| RedisReader.RecvLength | brtServer/redisclient.h:2256-2273 | The length line, wrong prefix and bad number included |
| RedisReader.RecvBulk | brtServer/redisclient.h:2275-2299 | One bulk reply, a missing value and malformed lengths included |
| RespWire.NegativeBulk | brtServer/redisclient.h:2275-2299 | A bulk of length -1 is the missing value, of -2 a protocol error, of any smaller length refused |
| RespWire.BulkCutOff | brtServer/redisclient.h:2281-2293 | A bulk is complete with the two bytes behind its data; cut off before that, the connection counts as closed |
| RespWire.OtherKind | brtServer/redisclient.h:2264-2270 | A line of another kind than asked for is a protocol error |
| RedisReader.RecvMultiBulk | brtServer/redisclient.h:2301-2314 | The multi-bulk reply at the front of the stream or the parser's error, and in either case what the parser leaves unread |
| RespWire.NegativeList | brtServer/redisclient.h:2301-2314 | A list of length -1 is a key error, of any smaller length refused |
| RedisReader.MakeCmd.ToRequest | brtServer/redisclient.h:255-269 | The builder's string is the printed command |
| RedisReader.MakeCmd.AppendAll | brtServer/redisclient.h:236-240 | All strings of a list, in order, behind what is there |
| RedisReader.MakeCmd.AppendKey | brtServer/redisclient.h:213-221 | A second key is refused and changes nothing |
| RedisReply.RecvGenericReply | brtServer/redisclient.h:2489-2518 | Dispatch on the peeked first byte reads the reply at the front of the stream, of any kind, or throws, and leaves just the bytes behind |
| RedisReply.ReplyRoundTrip | brtServer/redisclient.h:2489-2518 | Every answer a server can say, a missing bulk, a missing list, missing elements and errors of any code included, is read as the reply or exception it is heard as, and exactly its bytes are consumed |
| RespWire.AnswersWritten | brtServer/redisclient.h:2489-2518 | +OK, -ERR x, :5 and :-5, a bulk, the missing bulk and the missing list, byte by byte |
| RespWire.ListWritten | brtServer/redisclient.h:2301-2314 | A list with a missing element, byte by byte |
| RespWire.MissingHeard | brtServer/redisclient.h:457-460 | A missing value is heard as **nonexistent-key** |
| RedisReply.IntRoundTrip | brtServer/redisclient.h:2501-2503 | A 64-bit number is read back cast to an int, and so as it was if and only if it fits one |
| RespWire.IntKept | brtServer/redisclient.h:2501-2503 | The int kept is the one of 32 bits that agrees with the number modulo 2^32 |
| RedisReply.RepliesInOrder | brtServer/redisclient.h:689-692 | The bytes of several answers on a connection behave as the queue of those answers |
| RedisReply.ListsInOrder | brtServer/redisclient.h:2301-2314 | The same where the client insists on a list: it gets the items, a protocol error for an error reply, a key error for a missing list |
| RedisReply.NoListFails | brtServer/redisclient.h:2305-2306 | A missing list is a key error, and its line is consumed |
| RespWire.UnknownKind | brtServer/redisclient.h:2489-2518 | An answer of no known kind is refused unread |
| RedisReply.ThrowsExact | brtServer/redisclient.h:2489-2518 | The answers on which the client throws are the missing list and the error whose line is shorter than five bytes |
| RedisReply.ErrorTextExact | brtServer/redisclient.h:2498-2500 | The text of an error reply is recovered if and only if its code has three bytes, as ERR has |
| RedisReply.LoadingGarbled | brtServer/redisclient.h:2498-2500 | The LOADING error of a starting server loses the first half of its code and keeps the rest as text |
| RedisCluster.Cluster.Exec | brtServer/redisclient.h:672-693 | Pipelined execution leaves every server in the state of executing the commands one at a time in list order, each on the connection that the hash of its key modulo their number selects; a server selected by no key keeps its state and its connection its answers. Each command gets the answer that waits first on its connection, up to one on which the client throws. From a clean cluster the answers are the commands' own, all behind the one that threw stay on their connections, and the cluster is clean again if and only if there are none |
| RedisCluster.DoneExact | brtServer/redisclient.h:689-692 | A batch comes to its end, every command with its own reply, if and only if the client throws on none of the answers |
| RedisCluster.Cluster.ExecOne | brtServer/redisclient.h:665-670 | The server at the hash of the key modulo the number of connections handles the command, no other is touched; the command gets its own reply when nothing waits on that connection, otherwise the oldest reply waiting there |
| RedisCluster.Cluster.RouteIsHash | brtServer/redisclient.h:2370-2377 | Every key's connection is the one its hash modulo the number of connections selects, also when there is only one |
| RedisCluster.TakenConserves | brtServer/redisclient.h:689-692 | On every connection the answers taken, followed by those left, are the answers that were waiting: none is lost, given twice or overtaken |
| RedisCluster.TakenStops | brtServer/redisclient.h:689-692 | Answers are taken for all commands, or up to the first on which the client throws, that one included |
| RedisCluster.TakenClean | brtServer/redisclient.h:689-692 | With nothing waiting before the batch, command i takes answer i |
| RedisCluster.ExecAllOn | brtServer/redisclient.h:672-693 | What each server does with its own commands in a row is what it does when all commands are executed one by one |
| RedisCluster.Cluster.Batch | brtServer/redisclient.h:674-681 | Each server's request string is its commands in list order |
| RedisCluster.Cluster.SendAll | brtServer/redisclient.h:683-687 | Each server answers its own string and no other |
| RedisCluster.Cluster.Collect | brtServer/redisclient.h:689-693 | The loop takes for each command the first answer waiting on its connection, and stops at the first exception with what is then left |
| RedisCluster.Cluster.Recv | brtServer/redisclient.h:2489-2518 | A reply read off a connection is the first answer due on it, or the exception that answer causes; the bytes left are those of the others |
| RedisCluster.Cluster.RecvList | brtServer/redisclient.h:2301-2314 | The items of the list due first, a protocol error for an error, a key error for a missing list; the answer is consumed in every case and no other |
| RedisCluster.ParseAllPrinted | brtServer/redisclient.h:255-269 | A server parsing a request string finds just the commands printed into it |
| RedisMultiKey.MGet | brtServer/redisclient.h:730-761 | out[i] is the value of keys[i] at the server that the hash of keys[i] selects, or the missing value, repeated keys included; read from the bytes of the replies |
| RedisMultiKey.SInter | brtServer/redisclient.h:1389-1424 | The result is the intersection over all keys wherever they live; a protocol error exactly when some key does not hold a set, thrown at the first such connection; the replies of all connections behind it stay unread, and the cluster is clean again if and only if there are none; without keys the caller's set stays |
| RedisMultiKey.GroupKeys | brtServer/redisclient.h:735-745 | Every key is in its server's group, with its position, and nothing else is |
| RedisMultiKey.IntersectReplies | brtServer/redisclient.h:1406-1421 | In the order of the connections, taking the first reply and intersecting the later ones gives the intersection of all groups; at an error reply it stops, with just the groups behind still unread |
| StatString.RoundTrip | brtServer/util.cpp:568-612 | Decoding undoes encoding for every byte string |
| StatString.EncodedOdd | brtServer/util.cpp:568-591 | Every encoded byte is odd, so none is zero |
| StatString.EncodedLength | brtServer/util.cpp:568-591 | n bytes become n plus n/7 rounded up |
| StatString.EncodedAt | brtServer/util.cpp:568-591 | Byte i goes to place i + i/7 + 1, made odd if it was not, and bit i mod 7 + 1 of the mask in front of its group tells whether it was |
| StatString.DecodedAt | brtServer/util.cpp:593-612 | Byte i of any encoded string, not a mask, is decoded to place i - i/8 - 1: kept when bit i mod 8 of its group's mask is set, otherwise one less modulo 256 |
| StatString.EightBytes | brtServer/util.cpp:568-591 | The bytes 2 to 9 are encoded as 85, 3, 3, 5, 5, 7, 7, 9 and 3, 9 |
| StatString.EncodeStatString | brtServer/util.cpp:568-591 | The loop with its mask inserted behind each group computes the group-wise encoding |
| StatString.DecodeStatString | brtServer/util.cpp:593-612 | The loop computes the group-wise decoding, of arbitrary bytes too |
| StatString.SetBitExact | brtServer/util.cpp:580 | Or-ing a shifted one sets that bit of the mask and no other |
| GameInfo.AnnouncementRecovered | brtServer/server.cpp:347-358 | For every announcement the bot builds: the server reads back the host counter; it reads back the name, and computes the packet's size as the end, each if and only if the name has no zero byte; then it also reads the encoded map data, which decodes to the bot's |
| GameInfo.AnnouncementIsFrame | ghost/gameprotocol.cpp:731 | An announcement is a frame of the bot's stream exactly when it fits the length field |
| GameInfo.AnnouncementFields | ghost/gameprotocol.cpp:678-739 | Where each field of an announcement stands: header, kind, size, product, version, host counter and entry key in front of the name; slots, kind of map, open slots, up time and port, counted from the end, behind the encoded map |
| GameInfo.MapFields | ghost/gameprotocol.cpp:695-703 | And within the map: flags, a zero, width, height, check sum, path and host name, brtGHost when there is none |
| GameInfo.SendGameInfo | ghost/gameprotocol.cpp:678-739 | The appends lay out that packet, or nothing, exactly when a field has the wrong size or name or path is empty |
| GameInfo.ParseGameInfo | brtServer/server.cpp:347-358 | The server's reads, and its saved-game test |
| GameInfo.StatExact | brtServer/server.cpp:350 | The null-terminated read behind the name gives the stat string exactly when that has no zero |
| Bytes.ExtractCString | brtServer/util.cpp:186-205 | The scan returns the bytes up to the first zero or the end |
| Bytes.CStringRoundTrip | brtServer/util.cpp:186-205 | A string followed by a terminator is read back from behind any prefix if and only if it holds no zero |
| Bytes.U16RoundTrip | brtServer/util.cpp:69-110 | A 16-bit number appended anywhere is read back |
| Bytes.U32RoundTrip | brtServer/util.cpp:84-121 | The same for 32 bits |
| Bytes.LowByteFirst | brtServer/util.cpp:69-121 | The least significant byte stands first |
| Bytes.Wraps | ghost/gameplayer.cpp:752 | Unsigned 32-bit numbers: 2^32 more or less makes no difference |
| BanIndex.UpdateMapExact | ghost/bnet.cpp:6824-6857 | The built index is exact if and only if the list is non-empty, short enough for the sentinel, does not begin under letter 0 or 1, and each letter comes up first after all smaller ones |
| BanIndex.SortedIsOrdered | ghost/bnet.cpp:6824-6857 | Any list sorted by first letter meets the last condition |
| BanIndex.ThreeBans | ghost/bnet.cpp:6824-6857 | For "a", "ab" and "b" the entries are 0 for letter 97, 2 for letter 98 and 999999 for all others |
| BanIndex.RemoveBanExact | ghost/bnet.cpp:6763-6781 | Exactly the bans of that name go, order and sortedness stay, and an exact index stays exact if and only if for no surviving letter from 128 up its first ban or the one before it is removed |
| BanIndex.HighLetterLost | ghost/bnet.cpp:6869 | Two bans under letter 200: removing the first makes the index deny the second |
| BanIndex.PlainLettersExact | ghost/bnet.cpp:6763-6781 | For names that begin below 128 the index stays exact |
| BanIndex.EntryAfterRemoveRight | ghost/bnet.cpp:6859-6876 | One removal, one letter: the entry is right afterwards except in exactly that case |
| BanIndex.AddBanExact | ghost/bnet.cpp:6557-6577 | An exact index stays exact if and only if the letter has an entry or the list is empty; with an entry a sorted list stays sorted |
| BanIndex.BorrowedSpoils | ghost/bnet.cpp:6564-6576 | Without an entry, on a non-empty list, the index is never exact afterwards |
| BanIndex.BorrowNearest | ghost/bnet.cpp:6564-6572 | A letter without an entry takes the position of the nearest smaller letter with one |
| BanIndex.BorrowFront | ghost/bnet.cpp:6564-6572 | And the front of the list when there is none |
| BanIndex.RunBounded | ghost/bnet.cpp:6557-6577 | Under any sequence of adds and removes every entry is the sentinel or a valid position, and the index keeps its number of entries, be it 256 or the 255 of a bot that started without bans |
| BanIndex.RunExists | ghost/bnet.cpp:6557-6577 | With 256 entries, or with 255 and no name under letter 255, every such sequence can be carried out |
| BanIndex.BanList.UpdateMap | ghost/bnet.cpp:6824-6857 | The pushes build 256 entries, the record position of each letter or the sentinel; 255 for lists without a record from letter 2 up |
| BanIndex.BanList.UpdateMapRemoveBan | ghost/bnet.cpp:6859-6876 | Every entry is adjusted for the removed position |
| BanIndex.BanList.UpdateMapAddBan | ghost/bnet.cpp:6878-6885 | Entries behind the new position move up by one |
| BanIndex.BanList.Add | ghost/bnet.cpp:6557-6577 | The lower-cased ban is inserted at its letter's entry or at the nearest smaller letter's; the list holds a ban then for every name that differs from this one in case only, and a list of lower-case names stays one |
| BanIndex.BanList.RemoveBan | ghost/bnet.cpp:6763-6781 | The scan with erasing erases every ban of the lower-cased name, updating the index each time; from a list of lower-case names, all bans of names that differ from this one in case only are gone and all others are kept, in order |
| BanIndex.BanList.IsBannedName | ghost/bnet.cpp:6492-6503 | The first ban of the lower-cased name; in a list of lower-case names one is found exactly when a banned name differs from this one in case only |
| BanIndex.KeptExact | ghost/bnet.cpp:6763-6781 | The bans kept are those of other names, each once, in their old order |
| Names.LowerExact | ghost/bnet.cpp:6559 | Two names have the same lower-case spelling if and only if they differ in the case of ASCII letters only |
| Names.LowerIsLower | ghost/bnet.cpp:6559 | No upper-case letter is left, other bytes are unchanged, and a lower-case name stays |
| Throttle.NeverTooFast | ghost/bnet.cpp:945-975 | In every run, reconnects and tick wrap-around included, the time from a send to a later send is at least the sum of the waits owed by the packets from the first up to the second: 1000 ms for each of less than 10 bytes, the medium delay for each of less than 100, the big one for each of the others |
| Throttle.TotalBySize | ghost/bnet.cpp:959-964 | The waits owed, added up by size of packet |
| Throttle.FifoAndConserved | ghost/bnet.cpp:6347-6369 | Packets go out in the order queued apart from removed ones, and each queued packet is sent, still waiting or removed, once |
| Throttle.NothingRemoved | ghost/bnet.cpp:966-975 | While nothing is unqueued and the connection holds, sends followed by the queue are exactly what was queued |
| Throttle.DueExactly | ghost/bnet.cpp:966 | A waiting packet goes out exactly when the time since the mark modulo 2^32 reaches the wait; with gaps under 2^32 ms, exactly when the wait has passed |
| Throttle.PaceStep | ghost/bnet.cpp:945-975 | Every step keeps the pacing invariant |
| Throttle.WithoutExact | ghost/bnet.cpp:6347-6369 | Unqueueing removes packets of its kind and only those |
| BattleNet.Connection.SendNext | ghost/bnet.cpp:945-975 | The front packet is sent and its size and the second clock reading remembered exactly when due; otherwise nothing changes |
| BattleNet.Connection.Connected | ghost/bnet.cpp:1019-1025 | The mark is reset and the queue emptied |
| BattleNet.Connection.UnqueuePackets | ghost/bnet.cpp:6347-6369 | The queue without the packets whose second byte is that type, all others kept as often as before and in order |
| BattleNet.Connection.UnqueueChatCommand | ghost/bnet.cpp:6371-6398 | The queue without the packets equal to that one, all others kept as often as before and in order |
| BotGames.BotData.ProcessBotsPackets | brtServer/server.cpp:270-578 | Working off any queue of packets, the list keeps pairwise distinct names and says exactly what the map of games says after the same events; each game that was known and is not ended is told by them: started, messages and players as HistoryTold has it |
| BotGames.BotData.HandlePacket | brtServer/server.cpp:270-578 | One packet does to the list what its event does to the map |
| BotGames.BotData.GameCreated | brtServer/server.cpp:390-404 | A game is added unless one of that name exists |
| BotGames.BotData.GameEnded | brtServer/server.cpp:485-503 | The first game of that name, and so the only one, goes |
| BotGames.BotData.GameStarted | brtServer/server.cpp:506-520 | The game of that name is marked started, the marks of the others stay |
| BotGames.BotData.PlayerJoined | brtServer/server.cpp:525-548 | The player is added behind the others of that game, the other games keep theirs |
| BotGames.BotData.PlayerLeft | brtServer/server.cpp:550-578 | One occurrence fewer in that game, none when absent, the other games keep theirs |
| BotGames.Game.Erase | brtServer/server.cpp:560-575 | The first player of that name is taken out of the list, the others keep their places |
| BotGames.BotData.GameChat | brtServer/server.cpp:455-483 | Sender and text are added behind the messages of the game where name and host counter both match, and nowhere else |
| BotGames.StreamUnderstood | ghost/pubprotocol.cpp:121-226 | Any reports without zero bytes, each within the length field, sent back to back, are cut into packets and understood by the server report by report |
| BotGames.GamesIndependent | brtServer/server.cpp:455-578 | After any sequence of events what is known of a game depends on the events that name it and on nothing else |
| BotGames.HistoryTold | brtServer/server.cpp:455-578 | Over any events that do not end it a game stays, is started exactly if it was or one of them starts it, has its old messages followed by those for its name and host counter, sender and text in order, and each player as often as before plus joinings minus leavings, never below zero |
| BotGames.CreatedTold | brtServer/server.cpp:390-404 | From its announcement on, a game nobody knew is told by the events behind it alone |
| BotGames.ListedExact | brtServer/server.cpp:390-503 | Over events that do not end it, a game is listed exactly if it was or one of them announces it; ending takes it off |
| BotReports.ReportUnderstood | ghost/pubprotocol.cpp:121-226 | The server understands a report if and only if none of its strings holds a zero byte |
| BotReports.ReportBytes | ghost/pubprotocol.cpp:121-226 | The bytes of each report: 16, 0x56, 0x58, 0x59, 0x61 or 0x62 by kind, the size, and its strings with a zero behind each |
| BotReports.ReportIsFrame | ghost/pubprotocol.cpp:121-226 | A report is one frame of the bot's stream exactly when it fits the length field |
| Replace.Replace | brtServer/util.cpp:661-675 | Unchanged when the value contains the key; otherwise, on every input on which the loop ends, the iterated first-occurrence replacement, with no key left |
| Replace.EndsWhenCharacterMissing | brtServer/util.cpp:661-675 | When the value lacks some character of the key the loop ends, after at most as many turns as the text holds that character |
| Replace.EndsWhenShorter | brtServer/util.cpp:661-675 | It also ends when the value is shorter than the key, after at most as many turns as the text has characters |
| Replace.EndsWhenSameLength | brtServer/util.cpp:661-675 | It also ends when value and key are different texts of equal length: read as a number the text moves one way only |
| Replace.EndsWhenNotLonger | brtServer/util.cpp:661-675 | So for every value that is no longer than the key, the guard is all it takes |
| Replace.EndsWhenApart | brtServer/util.cpp:661-675 | It also ends when no end of the key, shorter than it, is a start of the value: the occurrences move right |
| Replace.EndsWhenApartBehind | brtServer/util.cpp:661-675 | And when no start of the key, shorter than it, is an end of the value: every turn uses up a character of the first text, so there are no more turns than it has characters |
| Replace.NeverEnding | brtServer/util.cpp:661-675 | A text on which the loop does not end in spite of the guard exists only for a value that is longer than the key, over all its characters, and overlaps it on both sides |
| Replace.GuardNotEnough | brtServer/util.cpp:665-666 | "ab" to "bbaa" on "aab": the guard lets it pass and the loop never ends |
| Replace.FindExact | brtServer/util.cpp:668 | The search finds the first occurrence, and none only when there is none |
| Replace.ReplacedBetween | brtServer/util.cpp:670 | What stands before the first occurrence and what stands behind it stay |

## Left out

- ReliableDelivery.ExactlyOnceInOrder: a run in which a trim does wrap is not followed beyond that trim, except for the counters and buffers (CountersAndBuffers). An ACK still in flight when a connection is replaced is lost with it, as in the code.
- GamePlayer.GamePlayer.ProcessPackets: what each game packet does to the game (chat, pings, map download, leaving) is not modelled, only that it is dispatched, in order.
- Sha1.CSha1.Update: a single call takes at most 2^32 - 128 bytes, so that position plus length does not wrap in 32 bits; the same bound holds for Md5.Md5.Update. The number of calls is unbounded.
- Md5.Md5.Transform: the 64 constants and the shift amounts are tables written out as RFC 1321 prints them and tied to its test suite (Md5Example); that the constants are the integer part of a sine is not stated.
- Throttle.NeverTooFast: the delays are fixed over a run; a change of the settings in mid-run is not modelled. The second queue for immediate commands and the 60-second null packet, which go around the throttle, are not modelled.
- Replace.Replace: a Dafny method ends, so it asks for an input on which the loop ends, no more; the lemmas beside it say when that is so and give an input on which it is not. NeverEnding leaves one case open: a longer value, over all of the key's characters, a start of which meets an end of the key and an end of which meets a start of it. There both outcomes occur, as GuardNotEnough shows for one; that is termination of a rewriting system of one rule, for which no decision procedure is known.
- RedisReader.ReadLine: the `max_size` limit, which the source never counts towards, is not modelled; nor are interrupted system calls.
- RedisReader.MakeCmd.ToRequest: arguments that are not strings are formatted by a library outside the model.
- RedisCluster.Cluster.Exec: a connection that breaks in mid-batch is not modelled, nor are lists whose elements are not bulks (SLOWLOG, EXEC, subscriptions), which the reader refuses in the middle. The consistent hasher is an arbitrary function of the key.
- RedisMultiKey.SInter: it is stated for a cluster on which no reply of an earlier call waits, as is MGet. After an error the caller's set, which the source may have overwritten by then, is not described.
- RedisMultiKey.MGet: the reply is taken to have one value per key, as MGET promises; an index beyond the request, which the source would not notice, cannot occur then.
- BanIndex.BanList.Add: the index must have an entry for the letter, as the source assumes without a test; UpdateMap of an empty list leaves letter 255 without one. The second AddBan overload, which passes "N/A" as the date, is this one.
- BotGames.BotData.HandlePacket: what the server forwards to users (lobby messages, announcements, lists of games) and the creation and start times of games are not modelled; packets too short for their fixed part, which the source reads past, are excluded. A player's team, always zero, is dropped.
- ServerPackets.Server.VisitUser: what is written to a user in its turn (pings, online counts, broadcasts) and what the handler does with a packet are not modelled, only which packets it is given and for whom. A socket's address used again for a later user is a different user here.
- GameInfo.ParseGameInfo: the saved-game branch, which sends the packet to the players listed behind the announcement, is left out beyond its test.
- The packets of ghost/gpsprotocol.cpp and ghost/pubprotocol.cpp are functions, not successive appends; they are single-expression layouts. The round macros of SHA-1 and MD5 return the registers they assign.
- The fields of CBNET are split over two classes, Connection and BanList.
- Memory limits, allocation failure, and reads past the end of a buffer are not modelled.
- Sockets, select loops, MySQL, files, zlib, bncsutil, chat command dispatch, message texts, logging and configuration are not part of this model.
- UTIL_ExtractHex with reverse, SID_GETADVLISTEX, mset and msetnx over several servers, transactions, hex printing of digests, slot bytes and packet builders without a decoder are not modelled.
