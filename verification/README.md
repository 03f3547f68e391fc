# TetherDesk: verified core

A Dafny model of the parts of TetherDesk whose correctness is decided by code rather than by the operating
system: the cryptography, the codec, the frame pipeline from captured pixels to the viewer's screen, the WebSocket
framing, the relay, and the host's pacing and login limiter. `dafny verify dfyconfig.toml` checks everything.

The program works by changing things in place, and so does the model: limb arrays, hash tables, shadow and
framebuffer, send queues, connections linked to one another and the fields of a connection are arrays, classes and loops.
Each such method is proved against a function or predicate on values, and the laws are proved about those. What several
threads or machines do together is a state machine over their interleaved steps: the worker pool, the tile claiming, the
handshake over two links, the relay's event loop, a run of frames to one viewer.

How the files fit together:

- `Bytes`, `Arith`, `Counting`, `Buffers`: machine words as ranges of integers, division facts, counting, the growable
  buffer and the reader with its sticky error.
- `PolyField`, `Poly1305`, `Poly1305Mac`: five 26-bit limbs against section 2.5 of RFC 8439. `Limbs25519`, `Field25519`,
  `Pack25519`, `X25519`: sixteen 16-bit limbs against RFC 7748. `Aead`, `Sha256`, `Channel`: the constructions above them.
- `Session`, `SessionLaws`: one viewer and one host over two FIFO links.
- `Lz`, `TileFormat`, `TilePack`, `Palette`, `TileEncode`, `TileDecode`: the codec and its exact round trip; `TileMeaning`:
  what the bits stand for, said without the functions both sides share.
- `TileGrid`, `FrameEncode`, `Claiming`, `EncodeJob`, `WorkerPool`, `FrameMessage`, `FramePipeline`, `Agreement`,
  `ScreenRuns`: a frame from pixels to message to screen, under every interleaving and over whole runs. `EncodeRound`:
  the pool running the encode; `Schedules`, `SameScreen`: when the interleaving can be told from the result.
- `WebSocket`, `WebSocketIo`, `WebSocketLaws`: framing as a function of the byte stream.
- `RelayState`, `RelayEvents`, `RelayUpgrades`, `RelayLoop`, `Relay`: the relay's state as a value and its invariant, and
  the program on linked objects that follows it; `RelayText`: the texts that host, relay and viewer write for one another.
- `Pacing`, `Limiter`: flow control, automatic quality, brute-force protection. `FrameSend`: the frame pump with its
  encode; `Live`: pacing, encode, link and screen together, over whole runs.

Assumptions, all of them parameters or preconditions: clocks never go back; random tickets are fresh; both sides of a key
exchange get one result (`Session.Agrees`); the block functions of SHA-1, SHA-256 and ChaCha20 are arbitrary functions;
`send_display_info`, which fetches the latest frame again, gets the frame at hand; links deliver in order; allocation
succeeds and lengths fit a size_t. Masks and shifts are written as remainders and quotients by powers of two, and `|` as `+`
where the bits are disjoint.

## Findings

Where the code or its documentation promises more than the code does; each with its exact condition.

- App::send seals exactly when the channel is active. A menu action between the viewer's hello and its own keying,
  possible while a dropped session reconnects with its menu open, goes out plain, whether or not the host has read the
  hello. The wire is as the protocol says exactly in the runs without such a message
  (`SessionLaws.SealedExactlyWhenQuiet`); with one, the host drops the session exactly unless the bytes happen to be sealed
  for it (`SessionLaws.EarlyMessage`), as after the Refresh button (`SessionLaws.RefreshBeforeKeyingBreaks`).
- A message the keyed viewer sends while its user is asked to confirm the host is sealed, but the host awaits a C_AUTH and
  closes: any message but a right C_AUTH does (`SessionLaws.AdmissionDecided`).
- rd_ws_next delivers the reserved opcodes 11 to 15 as it does the five defined ones (`WebSocketLaws.OpcodesDelivered`),
  and the relay forwards or holds them. What it relays is the sender's data messages exactly when the sender uses none of
  them (`RelayLoop.TransparentWhen`); one sent under opcode 11 before pairing becomes a BINARY message
  (`RelayLoop.HeldBecomesBinary`).
- The relay forwards a viewer's text messages as text once paired, but as binary when they were held before pairing:
  opcodes are kept exactly when all held messages were BINARY (`RelayLoop.TransparentWhen`).
- Which lossy tiles a refinement budget goes to depends on the interleaving of the workers, exactly when the budget is for
  some but not all of them, there are two workers or more, and the tiles lie in two chunks or more
  (`Schedules.ScheduleMatters`).
- The repository's README (line 111) says that anything sent with reduced colours is re-sent losslessly, and
  host/server.cpp:705 that sharper settings take effect through refinement. Once the picture rests, that is so exactly in
  automatic mode; at a fixed quality, the sharpest included, lossy tiles stay as they are (`Live.Converges`,
  `Live.RestingRun`).
- The tile count of a FRAME message has 16 bits. A message is read back whole exactly when it has fewer than 65536 records
  (`FrameMessage.FrameParses`); `ScreenRuns` and `Live` therefore speak of frames of fewer than 65536 tiles, and of sides
  below 65536, which the coordinates' fields hold.
- The same README (line 136) says that the lockout grows each time and that more than 30 failures a minute pause all
  logins. The pause grows exactly up to the tenth failure in a row (`Limiter.PauseGrows`) and logins pause at 30.

## Model

| member | source | states |
|---|---|---|
| Poly1305.MultiplyStep | common/rd_secure.c:220-234 | One multiplication by r with its carry chain: for any accumulator within the limb bounds no product sum, cast or `c * 5` loses a bit, the bounds hold again, and the value is h * r modulo 2^130 - 5. |
| Poly1305.CarryChain | common/rd_secure.c:227-233 | The carry chain leaves limbs within the bounds kept between blocks and subtracts a multiple of 2^130 - 5, limb 1 being left unreduced. |
| Poly1305.BlockValue | common/rd_secure.c:216-220 | The five masked, overlapping loads of a block denote its sixteen bytes as a little-endian number. |
| Poly1305.KeyLimbsClamp | common/rd_secure.c:240-247 | The masked loads of the key denote its first half clamped as section 2.5 of RFC 8439 says. |
| Poly1305Mac.PolyState.Absorb | common/rd_secure.c:212-238 | Over any number of whole blocks the accumulator stays congruent to the RFC's polynomial of all the blocks absorbed, within the limb bounds. |
| Poly1305Mac.FullCarry | common/rd_secure.c:252-258 | The first carry of the finish gives fully reduced limbs of the same residue, repairing the limb left unreduced. |
| Poly1305Mac.Canonical | common/rd_secure.c:252-272 | The finish selects the canonical residue in [0, 2^130 - 5). |
| Poly1305Mac.ToWords | common/rd_secure.c:273-276 | The four words are that residue modulo 2^128. |
| Poly1305Mac.AddPad | common/rd_secure.c:277-281 | Adding s word by word with carries is addition modulo 2^128. |
| Poly1305Mac.PolyState.Finish | common/rd_secure.c:250-282 | The tag of everything absorbed is (polynomial mod 2^130 - 5 + s) mod 2^128. |
| Poly1305Mac.BlocksSplit | common/rd_secure.c:284-295 | Whole blocks with the high bit, then the tail with its one bit in place, are the padded blocks of the RFC. |
| Poly1305Mac.Mac | common/rd_secure.c:284-296 | For every key and every message the tag is that of section 2.5 of RFC 8439. |
| Field25519.Add | common/rd_secure.c:76 | On limbs within the ladder's bounds addition never overflows and denotes + modulo 2^255 - 19, also in place. |
| Field25519.Sub | common/rd_secure.c:77 | The same for subtraction. |
| Field25519.Mul | common/rd_secure.c:79-90 | The product never overflows an int64, comes out tight again and denotes multiplication modulo 2^255 - 19, also in place and for squares. |
| Field25519.CarriedNumber | common/rd_secure.c:30-37 | A carry pass with 38 fed back to limb 0 keeps the value modulo 2^255 - 19. |
| Field25519.Carry | common/rd_secure.c:30-37 | The loop computes exactly that pass, keeps the field element, and every intermediate fits an int64. |
| Field25519.TwoCarries | common/rd_secure.c:79-88 | After two passes any product is within the tight bounds. |
| Pack25519.SubtractOnce | common/rd_secure.c:53-63 | One round of the borrow loop and the masked select subtracts 2^255 - 19 exactly when the value reaches it. |
| Pack25519.Pack | common/rd_secure.c:48-69 | Writes the unique representative in [0, 2^255 - 19) of the limbs' value, for any limbs the ladder can hold. |
| Pack25519.Unpack | common/rd_secure.c:71-74 | Limbs of the 32 bytes with the top bit dropped. |
| X25519.Invert | common/rd_secure.c:92-100 | The square-and-multiply schedule computes the power 2^255 - 21. |
| X25519.SwapBack | common/rd_secure.c:116-139 | Swapping back at the end of every step gives what the ladder of section 5 of RFC 7748 gives by carrying the swap along, for any step function, scalar and length. |
| X25519.Iteration | common/rd_secure.c:117-139 | The eighteen field operations between two swaps are one ladder step, although they overwrite their operands. |
| X25519.RunLadder | common/rd_secure.c:102-139 | The 255 steps over limb arrays compute the field-level ladder on the clamped scalar and masked coordinate. |
| X25519.DecodedScalar | common/rd_secure.c:105-107 | Whatever its bytes, the scalar that is multiplied by is 2^254 + 8 * (n mod 2^254 / 8): a multiple of 8 between 2^254 and 2^255. |
| X25519.SameScalar | common/rd_secure.c:105-107 | Two secrets give one scalar exactly when they agree in bits 3 to 253. |
| X25519.Multiply | common/rd_secure.c:102-146 | The result is X25519(k, p) of RFC 7748 for k = 2^254 + 8 * (n mod 2^254 / 8), and -1 is returned exactly when it is zero. |
| Aead.WordsAreState | common/rd_secure.c:184-191 | The sixteen words are the state of section 2.3 of RFC 8439 and no others are: the constant's text, the key, the counter and the nonce read as little-endian words. |
| Aead.WordsInjective | common/rd_secure.c:184-191 | Two blocks have the same input exactly when key, nonce and counter are the same. |
| Aead.ChaCha20 | common/rd_secure.c:184-203 | Block by block output is the keystream xor the text, whatever the length, the block counter wrapping at 32 bits. |
| Aead.SealedBytes | common/rd_secure.c:311-331 | Byte i of a sealed text is m[i] xor byte i mod 64 of the block at that key, that nonce and counter 1 + i / 64; the tag is Poly1305 of the authenticated bytes under the first half of the block at counter 0. |
| Aead.LengthsLast | common/rd_secure.c:316-321 | The authenticated bytes are the data, then the text, each padded to sixteen, then their two lengths in that order. |
| Bytes.XorAt | common/rd_secure.c:197 | Bit k of a xor b is set exactly where the two differ. |
| Aead.StreamInvolutive | common/rd_secure.c:184-203 | Applying the keystream twice gives the text back. |
| Aead.AbsorbPadded | common/rd_secure.c:301-309 | Absorbs exactly the blocks of the text zero-padded to sixteen bytes. |
| Aead.ComputeTag | common/rd_secure.c:311-325 | The tag is the one of section 2.8 of RFC 8439: one-time key, padded data, padded text, both lengths. |
| Aead.Seal | common/rd_secure.c:327-331 | Sealing is the RFC's ciphertext and tag. |
| Aead.Open | common/rd_secure.c:333-342 | Opening checks length and tag first and never yields a message otherwise. |
| Aead.OpensIffSealed | common/rd_secure.c:327-342 | A text opens to m exactly when it is m sealed under the same key, nonce and data. |
| Aead.Equal | common/rd_crypto.c:206-212 | The comparison that looks at every byte is equality. |
| Channel.Hkdf | common/rd_secure.c:346-367 | Output of any length is HKDF of RFC 5869 with the information cut at 256 bytes; the counter is a byte. |
| Channel.HsTranscript | common/rd_secure.c:371-381 | The streaming hash is the hash of the five parts joined. |
| Channel.RdChannel.HsKeys | common/rd_secure.c:383-395 | Host and viewer take the two halves of one output crosswise and start both counters at zero. |
| Channel.RdChannel.Seal | common/rd_secure.c:422-427 | Appends the message sealed under the send counter, which steps by one in 64 bits; nothing else changes. |
| Channel.RdChannel.Open | common/rd_secure.c:429-436 | A rejected message leaves the whole channel unchanged; an accepted one steps only the receive counter. |
| Channel.AcceptedIffSealed | common/rd_secure.c:429-436 | A text is accepted exactly when it is some message sealed under this key and counter. |
| Channel.NonceInjective | common/rd_secure.c:417-420 | Different 64-bit counters give different nonces. |
| Channel.NonceIs | common/rd_secure.c:417-420 | The nonce is four zero bytes and the counter in little-endian order, and nothing else is. |
| Channel.HsAuthMac | common/rd_secure.c:397-402 | The MAC over label and transcript under the password. |
| Channel.SendMsg | host/server.cpp:521-538 | All three send paths put the same frame in the queue: sealing behind a header written first equals sealing and then framing. |
| Session.CHelloParses | client/app.cpp:144-154 | The viewer's hello is understood by the host. |
| Session.SHelloParses | host/server.cpp:619-629 | The host's hello is understood by the viewer, with the nonce and both keys. |
| Session.HelloTexts | client/app.cpp:144-154 | The viewer's name, the host's name and its system are each found where the other side reads them. |
| Session.OtherVersions | host/server.cpp:598-606 | A hello of another version, or asking for another way of authenticating, is refused by either side. |
| SessionLaws.SessionLockstep | client/app.cpp:323-372 | In every run over FIFO links in which the viewer is quiet until keyed: each end has got exactly the first messages the other sent, nothing is ever rejected, keys are crossed, transcripts equal, and message n + 1 of a direction travels sealed under counter n. |
| SessionLaws.NoncesDiffer | common/rd_secure.c:417-436 | In every run in which the viewer is quiet until keyed, any two messages sealed in one direction went out under nonces that differ, unless they are a multiple of 2^64 messages apart. |
| SessionLaws.KeystreamOnce | common/rd_secure.c:184-203 | In every such run and either direction each byte of message i goes out against its own block of keystream and the tag is under block 0; no two blocks, of one message or of two, have the same input until 2^64 messages or 2^32 blocks have gone by. |
| SessionLaws.HostDecides | host/server.cpp:631-660 | The keyed host that awaits a C_AUTH becomes active exactly when the message opens to one with the MAC of its password over its transcript and there is room, and answers so; else it closes, telling a C_AUTH that failed. |
| SessionLaws.AdmissionDecided | host/server.cpp:631-660 | The same over every quiet run, for the viewer's own message: its C_AUTH is right exactly when the two passwords give one MAC over the transcript, and any other message closes the session. |
| SessionLaws.AnswerDecides | client/app.cpp:383-430 | In every quiet run the viewer that awaits the answer and reads it goes live and sends its settings exactly when the host let it in, and leaves otherwise; a live viewer has proved the host's password. |
| SessionLaws.HandshakeEnds | client/app.cpp:341-430 | End to end, with a known host or one confirmed by the user: both sides are in the session afterwards exactly when there was room and the passwords give one MAC; otherwise both have left. |
| SessionLaws.AdmittedMeansProved | host/server.cpp:631-666 | In every run, whatever the viewer sends and when, the host is active only if some message it got is a C_AUTH with the MAC of its password over this handshake's transcript. |
| SessionLaws.HelloAccepted | host/server.cpp:590-629 | The host is keyed, its hello sent in plain, exactly when the first message is a hello it understands and both exchanges give a key; one it does not understand is told so, anything else ends the session. |
| SessionLaws.SealedExactlyWhenQuiet | client/app.cpp:323-331 | For every run: all the viewer's messages travel as the protocol says (the first plain, message n + 1 sealed under counter n of the host's receive key) exactly when the viewer sent nothing between its hello and its own keying. |
| SessionLaws.EarlyMessage | client/app.cpp:323-331 | A message sent in that gap, before or after the host has read the hello, goes out plain; whatever happens next, the answer's delivery included, the keyed host rejects it and closes exactly unless its bytes are some message sealed under counter 0, and unless they are it never reads past it or becomes active. |
| SessionLaws.ShortEarlyMessage | client/app.cpp:323-340 | An early message of fewer than 16 bytes ends the session: in no continuation does the host become active. |
| SessionLaws.RefreshBeforeKeyingBreaks | client/app.cpp:2008 | Concrete runs: the Refresh button in that gap, before or after the host has read the hello, ends the session. |
| Sha256.Context.Update | common/rd_crypto.c:101-116 | Any split of a message into updates hashes the same bytes. |
| Sha256.Context.Pad | common/rd_crypto.c:118-126 | The padding loops terminate, produce the padding of section 5.1.1 of FIPS 180-4 and leave an empty block buffer. |
| Sha256.Context.Final | common/rd_crypto.c:118-128 | The digest is the block function folded over the padded message. |
| Sha256.Hash | common/rd_crypto.c:130-135 | The same in one call. |
| Sha256.DigestWords | common/rd_crypto.c:118-128 | Each four bytes of a digest, most significant first, are one word of the fold. |
| Sha256.InitialWords | common/rd_crypto.c:93-96 | The initial words are the first 32 fractional bits of the square roots of the first eight primes. |
| Sha256.InitialBytes | common/rd_crypto.c:45 | Those of SHA-1 are the counting bytes of FIPS 180-4. |
| Sha256.Sha1 | common/rd_crypto.c:44-58 | SHA-1 with its one- or two-block tail folds over the same padding. |
| Sha256.TailBlocks | common/rd_crypto.c:47-55 | The tail has one block exactly when nine bytes fit behind the rest. |
| Sha256.Hmac | common/rd_crypto.c:137-156 | HMAC-SHA-256 of RFC 2104, long keys hashed first. |
| Lz.Decompress | common/rd_codec.c:95-121 | Decodes exactly the well-formed inputs whose output fits, byte by byte for overlapping copies, and writes nothing beyond the capacity. |
| Lz.ReadLenRun | common/rd_codec.c:85-93 | The 255-run length, None when the input ends inside it. |
| Lz.CopyWithin | common/rd_codec.c:114-117 | The forward byte copy, also when source and target overlap. |
| Lz.CopyMatchOfText | common/rd_codec.c:55-75 | A match found in the text reproduces the text, overlapping or not. |
| Lz.ReadLenOfBytes | common/rd_codec.c:20-27 | Every length written as 255-runs is read back. |
| Lz.Candidate | common/rd_codec.c:47-54 | Whatever the hash table holds, an accepted candidate lies strictly before ip, within 65535, with four equal bytes. |
| Lz.ExtendForward | common/rd_codec.c:56-58 | The match stays equal and leaves the last five bytes as literals. |
| Lz.ExtendBackward | common/rd_codec.c:59-63 | Backward extension keeps the match, its offset and its end, and stops at the anchor. |
| Lz.EmitSequence | common/rd_codec.c:64-71 | Token, literals, offset and lengths exactly as the format reads them. |
| Lz.ProgressStep | common/rd_codec.c:64-73 | The amortised invariant: after each sequence what is written decodes to the text up to the anchor and is at most anchor + anchor/255 long. |
| Lz.Compress | common/rd_codec.c:36-83 | Round trip for every byte sequence with capacity exactly its length; output at most n + n/255 + 2 and so within rd_lz_bound, 0 exactly when the capacity is below that bound, nothing written beyond it; the skipping search terminates; a run of n > 12 equal bytes takes exactly 10 bytes, and from 25 on 1 + (n - 25)/255 more. |
| Palette.FindSlot | common/rd_codec.c:179-180 | The probe ends: at most 256 of 1024 slots are taken. |
| Palette.TableDistinct | common/rd_codec.c:179-189 | An empty slot after a run of other colours means the colour is new. |
| Palette.BuildPalette | common/rd_codec.c:165-193 | A palette exactly when there are at most 256 colours, one entry per colour, every index naming its pixel's colour. |
| TilePack.Pack | common/rd_codec.c:204-216 | Rows packed at 1, 2, 4 or 8 bits unpack to the indices. |
| TileFormat.UndoResiduals | common/rd_codec.c:234-243 | Undoing the prediction of the residuals gives back every prefix of the samples. |
| TileFormat.RecorrelateSamples | common/rd_codec.c:225-233 | Decorrelation modulo 256 is undone exactly. |
| TileFormat.QuantiseNearest | common/rd_codec.c:152-157 | Quantisation rounds to a nearest representable value, and level 0 changes nothing. |
| TileFormat.QuantiseIdempotent | common/rd_codec.c:152-157 | Quantising twice is quantising once. |
| TileEncode.QuantTable | common/rd_codec.c:155-157 | The table is that rounding at every byte, for any level, clamped to 0..3. |
| TileEncode.QuantiseTile | common/rd_codec.c:158-163 | Reads the window through its stride in BGRA order. |
| TileEncode.EncodeTile | common/rd_codec.c:146-259 | For all sizes up to 64 x 64, strides and levels the payload decodes to exactly the quantised window and is at most 3wh bytes; SOLID exactly for one colour, PALETTE and ZRGB only on their side of 256 colours. |
| TileDecode.UndoInPlace | common/rd_codec.c:311-320 | The in-place loop undoes the prediction although it overwrites what it reads. |
| TileMeaning.MedIsMedian | common/rd_codec.c:137-142 | The predictor is the median of left, above and left + above - diagonal, and nothing else is. |
| TileMeaning.UndoRestores | common/rd_codec.c:306-317 | Every sample the decoder restores is its residual plus that median, one neighbour on the edges, nothing at the corner, modulo 256. |
| TileMeaning.EdgesVanish | common/rd_codec.c:234-246 | Where a sample equals its upper neighbour and so does the one to its left, or the other way round, its residual is zero. |
| TileMeaning.PayloadsMean | common/rd_codec.c:264-325 | The encodings by the numbers sent: 0 one colour, 1 indexed, 2 predicted, 3 as it is, red in the first byte; nothing else is accepted. |
| TileMeaning.ZrgbMeans | common/rd_codec.c:302-324 | A predicted tile pixel by pixel: green is the restored sample, red and blue theirs plus green modulo 256. |
| TileMeaning.FewestBits | common/rd_codec.c:205 | Indices take the fewest bits of 1, 2, 4 and 8 that tell the colours apart. |
| TileMeaning.IndexBits | common/rd_codec.c:204-216 | Index x of a row is digit x, from the top, of the row read as one big-endian number. |
| TileMeaning.BitsKept | common/rd_codec.c:133 | The quality levels keep 8, 6, 5 and 4 bits of each channel. |
| TileDecode.Decode | common/rd_codec.c:265-332 | Accepts exactly the payloads the format defines, writes exactly their pixels through the stride and nothing outside the window. |
| TileDecode.BlitInside | common/rd_codec.c:278-282 | Inside the window each pixel is the picture's. |
| TileDecode.BlitOutside | common/rd_codec.c:278-282 | Outside the window nothing changes. |
| TileGrid.Partition | host/encoder.cpp:66-78 | A pixel is covered by tile k exactly when k is the tile of its column and row: the rectangles partition the frame. |
| TileGrid.TileInside | host/encoder.cpp:76-78 | Every tile lies inside the frame and is at most 64 by 64. |
| TileGrid.TilesApart | host/encoder.cpp:79-88 | In any flat image the rows of different tiles share no cell. |
| FrameEncode.Differs | host/encoder.cpp:81-83 | Dirty exactly when a full frame is asked for or some row differs from the shadow. |
| FrameEncode.CopyTile | host/encoder.cpp:85-88 | The tile's shadow rows become the frame's and no other tile's rows change. |
| FrameEncode.AppendRecord | host/encoder.cpp:97-110 | Appends position, size, encoding, back-patched length and a payload that decodes to the quantised tile. |
| Claiming.StepClaims | host/encoder.cpp:70-76 | In every interleaving a worker only handles a tile that no one has handled, and each step handles at most that one. |
| Claiming.EveryScheduleEncodes | host/encoder.cpp:64-126 | Whatever the interleaving and the number of workers, when all are done: the shadow is the frame, changed tiles went at the asked quality, exactly min(budget, lossy unchanged) others went lossless, and each tile that went was put out once, by one worker. |
| Claiming.SchedulesAgree | host/encoder.cpp:88-96 | With no refinement, or budget for all, every schedule leaves the same shadow and qualities and sends the same tiles. |
| Schedules.ScheduleMatters | host/encoder.cpp:68-96 | For every job and number of workers: all complete interleavings leave the same qualities exactly when the budget is for none of the lossy unchanged tiles or for all, or there is one worker, or one chunk of four has them all. |
| SameScreen.AgreeOnce | client/app.cpp:553-577 | Two screens that agree with the host's shadow and qualities are equal in every pixel. |
| SameScreen.SchedulesShowTheSame | host/encoder.cpp:64-126 | Under that condition the messages of any two complete interleavings, drawn on agreeing screens, or on any if the frame is full, give equal pixels everywhere. |
| Claiming.StillFrameRefines | host/encoder.cpp:88-96 | On unchanged content one encode refines exactly min(budget, lossy) tiles and sends nothing else. |
| Claiming.StillEncode | host/server.cpp:880-884 | An encode of unchanged content takes exactly its budget off the lossy tiles counted afterwards and sends just those; without a budget it changes no quality. |
| Claiming.ConcatCount | host/encoder.cpp:117-123 | The tiles counted over all workers are the tiles that changed, each once. |
| Claiming.ConcatFew | host/encoder.cpp:117-119 | All buffers together hold each tile at most once. |
| EncodeJob.Job.VisitTile | host/encoder.cpp:76-113 | The loop body on real buffers does what one handling step says. |
| EncodeJob.Job.Step | host/encoder.cpp:70-115 | One step of one worker, claim or tile, touches only its own buffer and the shared state the machine says. |
| EncodeJob.Job.RunSchedule | host/encoder.cpp:64-115 | Any sequence of such steps is the machine's run. |
| EncodeJob.Job.Collect | host/encoder.cpp:117-125 | The scratch buffers are joined in worker order and the counts add up to the records. |
| FramePipeline.Encode | host/encoder.cpp:64-126 | The whole encode under any complete interleaving. |
| FramePipeline.BuildFrame | host/server.cpp:872-890 | The message is header, records and the patched count. |
| FramePipeline.FullIsFlagged | host/server.cpp:874-879 | The message's type is 67 and its flag 1 exactly for a full frame. |
| FrameMessage.PatchCount | host/server.cpp:886 | The 16-bit count is patched in behind header and records. |
| FrameMessage.RecordParses | client/app.cpp:560-564 | A record is read back as it was put. |
| FrameMessage.FrameParses | client/app.cpp:553-577 | A message parses to the first r modulo 65536 of its r records, so to exactly the emitted ones if and only if there are fewer than 65536. |
| FrameMessage.OnFrame | client/app.cpp:553-600 | A frame with a whole header is acknowledged by its id, and is drawn exactly when every record parses, lies inside the screen and decodes. |
| Agreement.FrameKeepsAgreement | host/encoder.cpp:64-126 | An encode delivered keeps framebuffer tile = shadow tile quantised at tile_q for every tile, and a full one establishes it from any screen. |
| ScreenRuns.ViewerAgrees | host/server.cpp:845-891 | In every run of frames, size changes, quality changes and refreshes over a FIFO link no record is rejected, and once all is delivered and no full frame is owed every tile shows the last frame's tile at its recorded quality. |
| ScreenRuns.PixelShown | client/app.cpp:553-577 | The same pixel by pixel. |
| ScreenRuns.LosslessIsExact | host/server.cpp:856-884 | When no tile is recorded lossy the screen is the frame itself. |
| ScreenRuns.ResendHarmless | host/server.cpp:810-830 | A repeated DISPLAY_INFO goes out and changes nothing of what the viewer will see. |
| WorkerPool.EachJobOnce | host/encoder.cpp:24-44 | In every interleaving each worker has run jobs 1, 2, 3, ... once each and in order. |
| WorkerPool.ReturnedMeansDone | host/encoder.cpp:46-54 | run_all has returned only when every worker and the caller have run every job and none holds one. |
| WorkerPool.RoundEnds | host/encoder.cpp:24-54 | Every step of a round brings its end nearer. |
| WorkerPool.NeverStuck | host/encoder.cpp:24-54 | While a round is on some step is always possible. |
| WorkerPool.QuitEnds | host/encoder.cpp:14-33 | Once told to quit the pool takes no job again, and every worker can wake and is gone then. |
| EncodeRound.ReturnedMeansEncoded | host/encoder.cpp:34-119 | Pool and encode together, after any history of the pool and in every interleaving: when run_all has returned, every worker of the encode is done and the encode is complete. |
| EncodeRound.RoundEnds | host/encoder.cpp:34-119 | Every step of the pool or of a worker brings the return of run_all nearer. |
| EncodeRound.NeverStuck | host/encoder.cpp:34-119 | Until it returns some step is possible, so the encode ends however it is scheduled. |
| WebSocketIo.WriteHeader | common/rd_ws.c:20-35 | The header of a frame whose payload follows. |
| WebSocketIo.WriteFrame | common/rd_ws.c:37-65 | The frame of section 5.2 of RFC 6455, masked in place when asked. |
| WebSocketIo.HeaderThenPayload | common/rd_ws.c:20-65 | Header then payload is the whole unmasked frame. |
| WebSocketIo.WsReader.NextMessage | common/rd_ws.c:76-142 | The reader over its mutable buffer takes the next complete message exactly as the stream's meaning says, unmasking, consuming and assembling in place. |
| WebSocket.NextStable | common/rd_ws.c:76-142 | A decision once made does not depend on bytes that come later. |
| WebSocketLaws.SplitIndependence | common/rd_ws.c:76-142 | Bytes arriving in any pieces give what the joined bytes give. |
| WebSocketLaws.SameBytesSameMessages | common/rd_ws.c:76-142 | Messages depend only on the concatenated bytes. |
| WebSocketLaws.StreamRecovered | common/rd_ws.c:76-142 | Any messages, fragmented anyhow with controls between and masked with any keys, come out whole and in order. |
| WebSocketLaws.ExpectedIs | common/rd_ws.c:110-139 | A fragmented message is delivered once, after the controls before its last fragment. |
| WebSocketLaws.WrittenFrameAccepted | common/rd_ws.c:37-65 | A written frame is accepted exactly when its opcode and size are legal for the reader. |
| WebSocketLaws.OpcodesDelivered | common/rd_ws.c:110-139 | The opcodes the reader delivers for some bytes are exactly 1, 2 and all from 8 to 15. |
| Buffers.RdBuf.Reserve | common/rd_bytes.c:15-25 | The doubling loop ends with room enough and keeps the contents. |
| Buffers.RdBuf.Put | common/rd_bytes.c:34-38 | Appending keeps what is there. |
| Buffers.RdBuf.Consume | common/rd_bytes.c:71-78 | Drops exactly a prefix. |
| Buffers.RdBuf.Patch | common/rd_bytes.c:80-86 | Overwrites in place, or nothing when it does not fit. |
| Buffers.RdReader.GetBytes | common/rd_bytes.c:97-105 | Reads whole or sets an error that sticks. |
| Buffers.RdReader.GetLe | common/rd_bytes.c:107-128 | The little-endian value, 0 after an error. |
| RelayState.KillKeeps | relay/relay.cpp:167-184 | Killing a connection keeps every invariant, also for the one control connection an entry has just let go of. |
| RelayEvents.ReceiveKeeps | relay/relay.cpp:335-359 | Each message, of any opcode, including the one that overflows the pending queue, keeps every invariant. |
| RelayUpgrades.OwnKeeps | relay/relay.cpp:294-296 | Taking an id keeps every invariant. |
| RelayUpgrades.PairKeeps | relay/relay.cpp:300-314 | Pairing, with the held messages sent first, keeps every invariant. |
| RelayUpgrades.OnViewKeeps | relay/relay.cpp:315-324 | Turning a viewer away or ticketing it keeps every invariant. |
| RelayLoop.RunKeeps | relay/relay.cpp:433-486 | Every reachable state satisfies the whole invariant. |
| RelayLoop.PeersAreMutual | relay/relay.cpp:303-307 | In every reachable state peers are mutual, live, of one id, one viewer and one data connection, and not yet freed. |
| RelayLoop.TicketsNameViewers | relay/relay.cpp:97-99 | In every reachable state a ticket stands for exactly the live unpaired viewer holding it. |
| RelayLoop.OwnersAreUnique | relay/relay.cpp:285-297 | In every reachable state host entries name exactly the live control connections, each under its id. |
| RelayLoop.ForwardedInOrder | relay/relay.cpp:304-314 | In every reachable state the frames relayed to one end of a pair (all opcodes but close, ping and pong) are a prefix of what the other end sent from its first message on, in order, none lost or doubled, and all of it while paired; those held for the pairing go out as BINARY, the others under their own opcode. |
| RelayLoop.TransparentWhen | relay/relay.cpp:335-358 | Of the messages relayed so far: their payloads are the sender's data messages exactly when it sent none under a reserved opcode, and every frame carries its own opcode exactly when those held were BINARY. |
| RelayLoop.HeldBecomesBinary | relay/relay.cpp:311-356 | Any message to relay, sent by a waiting viewer under any opcode such as 11, reaches the host as a BINARY message; if it was no data message, what the host gets is not the viewer's data. |
| RelayLoop.HeldInFull | relay/relay.cpp:350-358 | In every reachable state pending_bytes is the sum of what is pending, at most 4 MiB, and a waiting viewer holds all it received. |
| RelayLoop.ReapLeavesNoReference | relay/relay.cpp:485 | Freeing the dead leaves no peer, ticket or entry that refers to one. |
| RelayLoop.UnansweredViewerLeaves | relay/relay.cpp:474-476 | A viewer unanswered for 20 s is told 4408, and once that is sent it is dead and its ticket admits no one. |
| RelayLoop.IdNeedsItsKey | relay/relay.cpp:281-293 | An id that is online is refused to any other key and given to a new connection with the same key, the old one dying. |
| RelayText.OpenIsRead | relay/relay.cpp:322-324 | The order the relay sends is read by the host as exactly that ticket and address when it is shorter than 256 bytes, and else not at all. |
| RelayText.QueryParam | relay/relay.cpp:105-119 | The scanning loop finds the value of the first pair of that name. |
| RelayText.JoinedIsRead | relay/relay.cpp:105-119 | Every parameter of a query made of name=value pairs is found, whatever the pairs, or nothing. |
| RelayText.RequestsAreRead | host/server.cpp:334-335 | The relay reads the host's control and data requests, and the viewer's, as they were meant. |
| RelayText.PairsByTicket | relay/relay.cpp:298-314 | A data request pairs with the viewer its ticket stands for exactly when it names that viewer's id and the id's key. |
| RelayText.OrderReachesViewer | relay/relay.cpp:315-324 | In every reachable state, after a view request for an id that is online: the last frame on that id's control connection is a TEXT from which the host reads a ticket and the address, the ticket stands for this very viewer, and the data request the host then writes pairs with it. |
| RelayText.RandomHex | relay/relay.cpp:131-138 | Two digits for each byte drawn. |
| RelayText.HexIsValid | relay/relay.cpp:125-138 | Such names are accepted where names are checked, carry no separator, and differ exactly when the bytes do. |
| RelayText.HexIsMade | relay/relay.cpp:125-129 | What is accepted as a key is the name of some bytes. |
| RelayText.MadeIdIsValid | host/main.cpp:183-186 | The id a host makes of four random bytes is one the relay accepts. |
| RelayText.RelayIdOf | client/app.cpp:48-55 | Nine digits with spaces and hyphens anywhere are an id, anything else is none. |
| RelayText.PrettyIsRead | client/app.cpp:57-59 | An id as it is shown can be typed in again. |
| Relay.WsSend | relay/relay.cpp:153-155 | Queues one unmasked frame, on a live connection only. |
| Relay.Relay.KillConn | relay/relay.cpp:167-184 | The method on the linked objects changes exactly what the state function changes. |
| Relay.Relay.HandleWsMessage | relay/relay.cpp:335-359 | So does message handling. |
| Relay.Relay.Upgrade | relay/relay.cpp:281-328 | So do the three upgrades and their refusals. |
| Relay.Relay.HandleHttp | relay/relay.cpp:230-333 | So does a request with the messages pipelined behind it. |
| Relay.Relay.ReadConn | relay/relay.cpp:361-383 | So does a read: messages in order until the connection dies or is closing, then the end of the stream or a malformed frame. |
| Relay.Push | relay/relay.cpp:385-400 | Sent bytes followed by queued bytes are always everything enqueued, through partial sends and compaction; emptied means all of it was sent. |
| Relay.Relay.Flush | relay/relay.cpp:385-400 | A send error, or an emptied queue on a closing connection, kills it; nothing else does. |
| Relay.Relay.Timer | relay/relay.cpp:470-483 | The timeouts and the keep-alive. |
| Relay.Relay.AcceptOne | relay/relay.cpp:451-467 | A new connection joins with nothing attached. |
| Relay.Relay.Reap | relay/relay.cpp:485 | Dead connections are freed and nothing kept refers to one. |
| Pacing.AcceptsInFlight | host/server.cpp:692-696 | Of arbitrary ids exactly those of frames in flight are accepted, through 32-bit wrap-around. |
| Pacing.FlowControlled | host/server.cpp:865-889 | In every run frame_id - acked modulo 2^32 is 0, 1 or 2 and the acknowledged count never falls or passes the sent one. |
| Pacing.SendsApart | host/server.cpp:863-889 | In every run each message goes out at least the period of the rate then in force after the one before, and that rate is at most the host's maximum. |
| Pacing.SendsSpan | host/server.cpp:863-889 | From one message to the n-th after it pass at least n periods of the host's maximum rate. |
| Live.RunTied | host/server.cpp:845-889 | In every run of pumps, acknowledgements, adaptation, settings, refreshes and deliveries the pacing fields tell the truth: the size, whether a full frame is owed, and the number of tiles recorded lossy. |
| Live.PumpSends | host/server.cpp:845-891 | In every such state a frame is encoded only with fewer than two in flight, with a budget exactly in automatic mode with lossy tiles left at the same size; a message goes out exactly when the encode sent a tile, with one record for each, under the next id, full exactly when one was owed or the size changed; the frame is then what is recorded, each tile that changed at the quality in force. |
| Live.RefreshRepaints | host/server.cpp:697 | After a refresh the next frame encoded carries a record for every tile in a message flagged full. |
| Live.RestingRun | host/server.cpp:856-884 | While the picture rests, whatever else happens but a refresh or new settings, n encodes leave at most L - 12n of L lossy tiles in automatic mode, and all qualities as they were at a fixed one. |
| Live.Converges | host/server.cpp:856-884 | From every reachable state that owes no full frame: on a resting picture ceil(L / 12) encodes make every tile lossless exactly in automatic mode or when none was lossy, and once they are delivered every pixel of the screen is the captured one. |
| Pacing.JamsSlowFirst | host/server.cpp:898-905 | However many congested windows follow each other: each halves the rate until it is at most 10, and only those after that cost colour, one level each up to level 2, in automatic mode. |
| Pacing.SmoothWindow | host/server.cpp:905-911 | Every second window without a stall repairs one thing, colour before frame rate. |
| Pacing.SmoothRestores | host/server.cpp:898-916 | After twice the missing steps of stall-free windows quality is 0 in automatic mode and the rate is full, and stays so. |
| Pacing.EighteenSuffice | host/server.cpp:898-916 | At up to 60 frames a second eighteen such windows always suffice. |
| FrameSend.MaybeSendFrame | host/server.cpp:845-891 | The method on the connection's fields, the shadow and the quality array does exactly that pacing step with the counts of the encode it runs; the encode is a complete one with the budget and quality the pacing gives, and the message, sent exactly when a tile was, is its header and records. |
| Pacing.ServerConn.AdaptQuality | host/server.cpp:898-916 | So does this one. |
| Pacing.ServerConn.HandleAck | host/server.cpp:692-696 | So does this one. |
| Pacing.ServerConn.HandleSettings | host/server.cpp:698-707 | So does this one. |
| Limiter.LoginLimiter.LockedOut | host/server.cpp:1123-1140 | Locked exactly while 30 failures of the last minute are remembered or the address is paused; waiting the seconds it names is long enough. |
| Limiter.LoginLimiter.RecordFailure | host/server.cpp:1142-1151 | Remembers the failure and pauses the address from its fifth in a row. |
| Limiter.LoginLimiter.Authenticate | host/server.cpp:631-666 | The order of the checks: pause, MAC, room, then the failures are forgotten. |
| Limiter.ThirtyOneSpanAMinute | host/server.cpp:642-653 | In every trace any 31 recorded failures in a row span more than 60 s. |
| Limiter.LongStreaksWait | host/server.cpp:1142-1151 | In every trace, after an address's k-th failure in a row, k >= 5, its next recorded one comes at least min(900, 30 * 2^min(k-5,5)) s later. |
| Limiter.PauseGrows | host/server.cpp:1146-1150 | The pause grows with a further failure exactly while fewer than ten are on record. |
| Limiter.LockedExactly | host/server.cpp:1123-1140 | In every trace an address must wait exactly while the thirtieth failure from the end is at most a minute old or, after k >= 5 of its own in a row, until min(900, 30 * 2^min(k-5,5)) s after the last of them. |
| Limiter.JudgedAfterWait | host/server.cpp:631-660 | Once both waits are over an attempt is judged: recorded as a failure, or let in when the MAC is right and there is room. |

## Left out

- Screen capture, input injection, SDL drawing, textures and the downscaled copy, dialogs, files, clipboard: user interface and system calls.
- Sockets, TLS, HTTP header parsing (RelayText starts at the request target), static pages, Base64 and the accept key: plumbing; requests and messages come in parsed, socket results as arguments.
- Elliptic-curve group theory, primality of 2^255 - 19, strength against forgery or collision: only functional equalities are stated.
- Timing side channels and wiping of secrets: not visible in the values computed.
- The rounds inside the SHA-1, SHA-256 and ChaCha20 block functions: straight-line code with nothing to compare it with but itself.
- Text and password contents, fingerprints, trust on first use: the handshake model takes the decision as an input.
- FrameEncoder without tile_q: the host always passes it.
- The order of connections in the relay's vector, its limits on connections in all and per address: connections are a set and events come in any order.
- The host's own send queue: the same loop and compaction as the relay's flush.
- Memory bound of a relay connection's whole output queue: pings and pongs share it with forwarded data.
- DISPLAY_INFO beyond the size, display switching and the capture restart: only the size matters to the screen.
- Partial pixels of a rejected palette tile: the window's contents are unspecified until the full frame that follows the refresh.
- WorkerPool: condition variables are guards that are looked at again at any time; a lost wake-up is not expressible, and the pool is on values, its threads being a sequence.
- FrameSend.MaybeSendFrame: one frame; that the workers clear their buffers before the next is a precondition, and the schedule of the encode is an argument, which EncodeRound shows is always completed.
- Live.Converges: the whole picture rests; while other parts keep changing, each frame refines as many of the unchanged lossy tiles as the budget allows (Claiming.EveryScheduleEncodes), and which ones depends on the schedule. It counts the frames that are encoded; when the socket and the viewer let the next one be encoded is Pacing's Due and Blocked.
- ScreenRuns.ViewerAgrees: here and in Live an encode is any complete interleaving of Claiming with records that match it, as FramePipeline.BuildFrame produces them; shadow and framebuffer are values there.
- SessionLaws.SessionLockstep: a message is one element of a link; that frames carry messages whole is WebSocketLaws.StreamRecovered.
- Limiter.LoginLimiter.Authenticate: the MAC comparison and the viewer count come in as their results.
- The hash functions of the compressor's and of the palette's table: any function into the table is right, so nothing is stated of their values.
