# Verified models of a multiplayer voxel game

This project models six parts of the game and proves what they keep. The models follow the code branch by
branch: same constants, same edge cases, same failures. Where the code rewrites fields or buffers in loops there
is a class or a method with loops, proved equal to a function; what the code is for is then proved about that
function.

1. **DEFLATE and PNG.** `Bits`, `Huffman`, `Deflate`, `DeflateStream` give the meaning of a compressed stream (RFC
   1951) as a number read from its low end, and prove that writing and reading are inverse. `Inflate` is the decoder
   object: bit buffer, fast table and slow path, in-place copies, growing output. It is proved equal to that meaning.
   `Determined` says when its block loop ends, and when its output is determined by its input. `DeflateTables` proves that
   all numbers involved are those of the standard: every length and distance once, code order, fixed codes, run lengths.
   `PngFilter`, `PngImage` and `Adam7` do the same for row filters, inserted alpha and the places of the seven
   passes (RFC 2083), and `Interlaced` for a whole interlaced image: cutting, decoding and placing. `PngMeaning` says of every
   decoded byte what it is.
2. **Message transport.** `NetMessage` cuts messages into fragments, `MessageCursor` reads them without joining
   them, `Transport` is the state machine of locked sections, partial writes and completions, and `Connections` is the
   connection object whose handlers are those steps.
3. **World replication.** `Replication` is the protocol between the server and any number of clients over FIFO
   links; `Servers` is the server object whose handlers are its steps. `Batches` is the order in which the client handles
   what it gets, through a queue of creates and a queue of destroys that are exchanged one after the other. `Handshake`
   says exactly what every client is sent in a run, from login to its first update and every update after.
4. **Voxel mesh.** `VoxelMesh` describes how 24-vertex blocks are added, removed by moving the last one, and found
   again; `Voxels` is the volume object with the queue-draining loop.
5. **Event double buffer and client state queue.** `EventQueues` is the two-queue swap with producers interleaving
   between pointer load and emplace, and the queue object. `GameStates` is the acceptance, consumption and ring of
   server states over real numbers, `Interpolation` where exactly what is between them is shown, `Entries` which entries
   states have and how predictions are corrected, and `ClientStates` the object.
6. **Paths.** `PathForm` and `Paths` give normalising, printing and parsing, and `PathMeaning` says when normalising keeps
   what a path means; `PathChars` says which characters decide, and `FilePaths` is the object that rewrites its
   strings. `Bytes` is the byte type all parts share.

## What turned out false, and exactly when it holds

- **One block per voxel.** A voxel index queued twice between two updates gets two blocks (`VoxelMesh.AddedTwice`).
  `VoxelMesh.DrainedExact` gives the exact condition for an update to leave one block per voxel: no present voxel is
  queued if the mesh already has it, and none is queued more than once otherwise; `VoxelMesh.RunExactIff` the same for
  whole runs. Removing a voxel that has several blocks leaves blocks without a side-index entry, and only that does
  (`VoxelMesh.OrphanIff`); such a block stays drawn after its voxel is gone (`VoxelMesh.OrphanDrawn`) and gets an entry
  again if it is the one moved by a later removal (`VoxelMesh.Readopted`).
- **Faces shown from outside.** Moving a block reverses its 24 vertices. `VoxelMesh.Winding` proves for every block and
  each of its twelve triangles that the side shown is the one the normals point to if the block stands in normal order,
  and the opposite one if it is reversed.
- **Events in order.** They are not, not even those of one producer (`EventQueues.ProducerReordered`).
  `EventQueues.InOrderIff` gives the exact condition: the order of handling is the order of emplacement if and only if
  no emplace of the run overtakes, that is, goes into the queue that will be handled first while the other one holds an
  event. That takes an exchange between some pointer load and its emplace, but not every such exchange does it: while
  the other queue is empty it is harmless. With `QueueEvent` atomic no emplace overtakes: `EventQueues.AtomicRunFifo`.
- **One writer while anything is queued.** A message without fragments, which `SendChatMessage("")` makes
  (client/server-connection.cpp:138-180, reached by a bare `msg` in the console, client/gui/console.cpp:150-165 and
  client/main.cpp:126-127), makes `do_write` take the front of an empty queue if nothing is queued
  (`Transport.EmptyBreaks`) and is lost without harm if something is (`Transport.EmptyDropped`). `Transport.StepInv` and
  `Transport.OneWriterIff`: a step, and a run, keep one writer if and only if no such message is sent on an idle
  connection.
- **Normalising keeps what a path means.** Two things break it. A segment of two dots and then only dots and spaces,
  such as `...`, is trimmed to `..` and then goes up: `/a/.../b` becomes `/b` (`PathMeaning.DotsClimb`,
  `PathMeaning.ClimbsIff`). From every directory the code resolves segments as they should be if and only if there is
  none of these (`PathMeaning.AbsoluteIff`). And in a relative path a kept `..` is popped by the next one, so `../../x`
  and `x` are the same path: of the leading `..` the code keeps the remainder by two (`PathMeaning.KeepsParity`). A
  relative path and all paths on the way to it lead where they should from every directory if and only if no segment is
  of that kind and at most one `..` is left at the front (`PathMeaning.MeaningKeptIff`). One path alone does exactly if it
  is resolved to what it means (`PathMeaning.FromEveryIff`), which two mistakes can bring about (`PathMeaning.TwoMistakes`).
- **Elements cannot end in a dot or a space** (common/filesystem.cpp:234). Those of one or two characters can: a
  single space, a dot or a space after any character. `PathForm.DotEndingIff`: exactly the elements with at most two
  characters other than `.` occur so in normal paths.
- **The base has the id of the last state popped.** It takes id and entries from the first
  (client/client-game-state-queue.cpp:59-63 reads a reference to the popped front). `GameStates.BaseIsLastPopped`:
  this is the last one if and only if the time did not pay for two, or only one was pending. `GameStates.FirstIdKept` is a
  run in which it is not. Ids stay in order all the same.
- **Clients get the server's entities.** The client has one queue of creates and one of destroys. A call exchanges and
  empties the first, and only then the second (client/client-game-state-queue.cpp:113-115), while messages keep coming
  in. An entity destroyed and created again in one call is lost (`Batches.ReusedLost`). One created and destroyed between
  the two exchanges stays for good (`Batches.PartedStays`, and `Batches.PartedReached` for a client of a running server).
  The server has the same two queues (server/server.cpp:170-173) and can handle the destroy of a fresh entity before
  its create, so the first happens too (`Batches.SwappedReached`). The exact condition, in whatever order the events are
  handled: the last event handled of every entity is the last one sent (`Batches.OrderReplicatedIff`). In terms of how
  many messages each exchange finds: an entity's last create comes after its last destroy exactly when some call took the
  destroy and left the create to a later one (`Batches.CallsReplicatedIff`). If the server never handles a create
  after a destroy of the same entity, this says that no call does that (`Batches.PartedReplicatedIff`), which would be so
  if destroys were exchanged before creates.
- **The output of DEFLATE is determined by the input, and decoding ends.** The tables have entries for length symbols 286
  and 287, which give no bytes, and distance symbols 30 and 31, at distance 0. A match at distance 0 copies bytes that
  were never written. `Determined.InputDeterminedIff`: the output of an accepted input is determined if and only if no
  block holds a match by distance symbol 30 or 31 with a length symbol of the standard. A match without bytes whose code
  is all zeros goes on for ever past the end of the input: `Determined.TruncatedIff`, `Determined.BlockEndsIff`. Blocks
  with the fixed codes always end (`Determined.FixedEnds`).
- **Reading a message ends.** The search of `Next` ends if and only if the cursor is not stuck
  (`MessageCursor.MessageIn.EndsIff`): not when part of the first data has been read with empty fragments before
  it. `MessageCursor.UnreadableSpins` shows the second `Next` looking for data without end.
- The documentation of `BasePath` (common/filesystem.hpp:226-234) promises the containing directory with a final
  slash. The code leaves no final slash except on the root, and for a path that ends in one it removes only that slash;
  `Paths.BaseElements` states what it does.

## Model

| member | source | states |
|---|---|---|
| Bits.BitReverse16IsRev | client/resources/stb_image.h:3871-3878 | the four mask-and-shift exchanges reverse the order of 16 bits, for every number |
| Bits.BitReverseIsRev | client/resources/stb_image.h:3880-3885 | reversing 16 bits and shifting down reverses exactly the low bits, for every width up to 16 |
| Bits.OperatorsAgree | client/resources/stb_image.h:3961-3978 | the `&` with a mask and the `\|` above the held bits are remainder and addition, so the bit buffer can be read as a number |
| Bits.RevIff | client/resources/stb_image.h:3880-3933 | a number's low bits are the reversed code exactly when its reversed bits open with the code |
| Huffman.KraftIffLimit | client/resources/stb_image.h:3902-3914 | the running code after the last length is the Kraft sum, so the size tests are the Kraft inequality |
| Huffman.CodesTile | client/resources/stb_image.h:3888-3933 | the codes, left-aligned, tile the interval from 0 to the Kraft sum: each number in it belongs to exactly one code, none outside does |
| Huffman.PrefixFree | client/resources/stb_image.h:3888-3933 | two symbols whose codes both open one bit stream are the same symbol |
| Huffman.FillFast | client/resources/stb_image.h:3922-3928 | writes one code at every index it opens and nowhere else, and never over another entry (each index must be free) |
| Huffman.CheckSizes | client/resources/stb_image.h:3896-3901 | the per-length count test rejects no list that meets the Kraft inequality |
| Huffman.AssignCodes | client/resources/stb_image.h:3902-3914 | succeeds exactly on the Kraft inequality and leaves first code, limit and first slot of every length |
| Huffman.FillTables | client/resources/stb_image.h:3915-3931 | every short code is in the fast table at all its indices, every symbol in its slot with its length |
| Huffman.Build | client/resources/stb_image.h:3888-3933 | for all lengths up to 15 the builder succeeds if and only if the Kraft sum is at most 1, and its table then represents the canonical code |
| Huffman.NoShortCode | client/resources/stb_image.h:3998-4010 | an empty fast entry means that no code of at most 9 bits opens the stream, which the slow path relies on |
| Huffman.DecodeSlow | client/resources/stb_image.h:3980-3996 | the length search finds the one code that opens the stream and the slot check `size[b] == s` never fails; it fails only if no code does |
| Huffman.Decode | client/resources/stb_image.h:3998-4010 | fast lookup and slow path together return the symbol whose canonical code opens the stream, with its length, or fail exactly if there is none |
| Huffman.DecodesUnique | client/resources/stb_image.h:3998-4010 | that symbol or failure is determined by the stream |
| Deflate.LookupWritten | client/resources/stb_image.h:3980-4010 | a symbol written with its code is decoded back, leaving exactly what followed |
| Deflate.WrittenLookup | client/resources/stb_image.h:3980-4010 | and whatever is decoded was so written |
| Deflate.ReadWritten | client/resources/stb_image.h:4049-4070 | reading a literal, match or end token by any symbols of the tables, those without a meaning included, gives back the token written, and exactly its bits are used |
| Deflate.WrittenRead | client/resources/stb_image.h:4049-4070 | conversely every token read, by whatever symbols, is legal and its bits are the ones it would be written with |
| Deflate.CopyBackBytes | client/resources/stb_image.h:4076-4082 | a match keeps the output and each new byte equals the one `dist` earlier, overlaps included, or what the buffer held in its place if `dist` is 0 |
| Deflate.GrownTwice | client/resources/stb_image.h:4012-4029 | growing the output in steps gives the same buffer size as growing it once |
| Deflate.BlockRoundTrip | client/resources/stb_image.h:4045-4085 | for every legal token list under any two codes that meet the Kraft inequality, decoding the written block gives exactly the LZ77 expansion and stops at the end code |
| Deflate.BlockSound | client/resources/stb_image.h:4045-4085 | every block the decoder accepts is the writing of some legal token list, with that list's expansion as output |
| Determined.BlockEndsIff | client/resources/stb_image.h:4045-4085 | the loop over a block's tokens, stepped round by round, returns if and only if no round finds that it changes neither stream nor output |
| Determined.TruncatedIff | client/resources/stb_image.h:4045-4085 | past the end of the input it goes on for ever if and only if the code of zeros is that of a match without bytes that reaches |
| Determined.AlwaysEnds | client/resources/stb_image.h:4045-4085 | where the code of zeros is not that of a match without bytes, every block ends, whatever its input |
| Determined.FixedEnds | client/resources/stb_image.h:4045-4085 | with the fixed codes every block ends |
| Determined.WithinTables | client/resources/stb_image.h:4031-4070 | with at most 288 length and 32 distance codes no symbol is looked up beyond the tables |
| Determined.HeaderSizes | client/resources/stb_image.h:4087-4134 | a dynamic block has at most so many codes |
| Determined.DeterminedIff | client/resources/stb_image.h:4072-4082 | a token list gives the same output for every content of the fresh buffer if and only if none of its matches has distance 0 and a length |
| DeflateStream.StreamBit | client/resources/stb_image.h:3955-3978 | bit j of byte i is bit 8i+j of the stream, and zeros follow the last byte (RFC 1951 section 3.1.1) |
| DeflateStream.StoredReadsInput | client/resources/stb_image.h:4136-4163 | from any bit position a stored block takes the next four whole bytes and then the payload from the input, and succeeds exactly if the lengths complement each other, the payload is there and fits |
| DeflateStream.StoredRoundTrip | client/resources/stb_image.h:4136-4163 | a written stored block is read back whatever the padding bits are |
| DeflateStream.OpsRoundTrip | client/resources/stb_image.h:4107-4130 | code lengths written with repeat codes 16, 17 and 18, runs crossing the two lists included, are read back |
| DeflateStream.HeaderRoundTrip | client/resources/stb_image.h:4087-4134 | a dynamic block header is read back to its two code-length lists |
| DeflateStream.FixedKraft | client/resources/stb_image.h:4178-4193 | the fixed code lengths satisfy the Kraft inequality, so building them cannot fail |
| DeflateStream.StreamRoundTrip | client/resources/stb_image.h:4207-4233 | every sequence of stored, fixed and dynamic blocks is decoded to the bytes it stands for, whatever the fresh buffer holds |
| DeflateStream.InflateRoundTrip | client/resources/stb_image.h:4207-4243 | every input that holds a zlib header and a legal stream is decoded to its data, whatever follows it |
| DeflateTables.LengthExtraLaw | client/resources/stb_image.h:4036-4037 | length symbols have four to each number of extra bits, after eight without any (RFC 1951 section 3.2.5) |
| DeflateTables.LengthBaseLaw | client/resources/stb_image.h:4031-4034 | lengths start at 3, and every symbol starts where the values of the one before it end; symbol 285 is 258 alone |
| DeflateTables.DistExtraLaw | client/resources/stb_image.h:4042-4043 | distance symbols have two to each number of extra bits, after four without any |
| DeflateTables.DistBaseLaw | client/resources/stb_image.h:4039-4040 | distances start at 1, and every symbol starts where the values of the one before it end |
| DeflateTables.LengthOnce | client/resources/stb_image.h:4031-4037 | every length from 3 to 258 is given by exactly one of the symbols 257 to 284 and one extra value |
| DeflateTables.LongestLength | client/resources/stb_image.h:4031-4037 | symbol 285 gives 258 and nothing else; later symbols give no length |
| DeflateTables.DistOnce | client/resources/stb_image.h:4039-4043 | every distance from 1 to 32768 is given by exactly one of the symbols 0 to 29 and one extra value |
| DeflateTables.MatchRead | client/resources/stb_image.h:4064-4070 | a match that is read has its length code, length bits, distance code and distance bits in this order in the stream, and is as long and reaches as far back as these say |
| DeflateTables.RoundIs | client/resources/stb_image.h:4048-4084 | one round of the block loop: a literal is one byte more, a match fails exactly if it reaches further back than the output goes and otherwise repeats the bytes at its distance, and room is needed for all of them |
| DeflateTables.GrownIs | client/resources/stb_image.h:4019-4021 | the output room is doubled as often as it takes and no more often |
| DeflateTables.RoomIff | client/resources/stb_image.h:4012-4029 | there is room exactly if it need not grow, or may and the heap serves the doubled size |
| DeflateTables.CodesInOrder | client/resources/stb_image.h:3902-3931 | codes of one length count up with the symbols, and shorter codes come before longer ones; with the tiling this leaves one assignment (section 3.2.2) |
| DeflateTables.FixedCodeValues | client/resources/stb_image.h:4178-4188 | the fixed length codes are those of section 3.2.6, range by range |
| DeflateTables.FixedDistValues | client/resources/stb_image.h:4190-4193 | the fixed 5-bit distance codes are the symbols |
| DeflateTables.FixedLengths | client/resources/stb_image.h:4178-4193 | the fixed code lengths by ranges of symbols |
| DeflateTables.OrderLaw | client/resources/stb_image.h:4089 | code-length symbols are sent in the order 16, 17, 18, 0 and then outwards from 8 |
| DeflateTables.ScatterAt | client/resources/stb_image.h:4100-4104 | each value sent is the length of the symbol at its place in that order, and symbols not sent have none |
| DeflateTables.OpRead | client/resources/stb_image.h:4108-4129 | what one code-length symbol does: a length, 3 to 6 copies of the last, or 3 to 10 or 11 to 138 zeros by 2, 3 and 7 extra bits, and when it is an error |
| DeflateTables.HeaderRead | client/resources/stb_image.h:4095-4107 | an accepted header has the counts of its five-bit and four-bit fields, and its two lists are the one list read after the code-length sizes, cut at the count |
| DeflateTables.BlockTypes | client/resources/stb_image.h:4214-4230 | two bits tell a stored, a fixed, a dynamic block and an error apart |
| DeflateTables.ZlibHeaderIff | client/resources/stb_image.h:4165-4176 | the header is accepted if and only if it is a multiple of 31, its method is 8 and bit 5 of the second byte is clear |
| Determined.OneReading | client/resources/stb_image.h:4207-4233 | an input is read as blocks of tokens in one way only |
| Determined.InputDeterminedIff | client/resources/stb_image.h:4207-4243 | an accepted input is accepted and read as the same blocks whatever the fresh buffer held; its output is the same if and only if no block holds a match by distance symbol 30 or 31 and a length symbol of the standard |
| Inflate.ZBuf.FillBits | client/resources/stb_image.h:3961-3968 | refilling never changes the remaining stream, keeps `code_buffer < 2^num_bits` and leaves at least 25 bits held |
| Inflate.ZBuf.Receive | client/resources/stb_image.h:3970-3978 | returns the next n stream bits and advances by n |
| Inflate.ZBuf.DecodeSymbol | client/resources/stb_image.h:3998-4010 | decodes the next symbol of the unbuffered stream and consumes exactly its code |
| Inflate.ZBuf.Expand | client/resources/stb_image.h:4012-4029 | doubles until it fits, keeps the output, and fails exactly if the buffer may not grow that far |
| Inflate.ZBuf.CopyRun | client/resources/stb_image.h:4077-4079 | the one-byte-run shortcut writes what the general copy with distance 1 would |
| Inflate.ZBuf.CopyMatch | client/resources/stb_image.h:4080-4082 | the byte-by-byte copy is the match's meaning, at distance 0 too |
| Inflate.ZBuf.Emit | client/resources/stb_image.h:4050-4082 | appends the token's bytes, growing in the middle of a block without effect on the output; fails exactly on a distance too far or no room |
| Inflate.ZBuf.ParseHuffmanBlock | client/resources/stb_image.h:4045-4085 | the block loop, when it ends, yields the block's meaning: output, bits used, or the same failure |
| Inflate.ZBuf.DrainHeader | client/resources/stb_image.h:4136-4153 | however many bytes were prefetched, the four header bytes are the next four of the stream |
| Inflate.ZBuf.ParseUncompressedBlock | client/resources/stb_image.h:4136-4163 | the stored-block code yields the stored block's meaning |
| Inflate.ZBuf.ReadCodeLengths | client/resources/stb_image.h:4107-4130 | the length loop yields the list the repeat codes stand for, or the same failure |
| Inflate.ZBuf.ComputeHuffmanCodes | client/resources/stb_image.h:4087-4134 | accepts exactly the headers with a meaning and builds tables that represent their codes |
| Inflate.ZBuf.ParseZlibHeader | client/resources/stb_image.h:4165-4176 | accepts exactly the two-byte headers with the right check, no dictionary and method 8 |
| Inflate.ZBuf.ParseBlocks | client/resources/stb_image.h:4207-4233 | the loop over the blocks, with fixed or dynamic codes per block, yields the stream's meaning, when those of its blocks end |
| Inflate.ZBuf.DoZlib | client/resources/stb_image.h:4207-4243 | the whole decoder returns exactly the output, or the failure, of the unbuffered, table-free meaning, whatever the fresh buffer holds, on every input on which its loops end |
| PngFilter.PaethNearest | client/resources/stb_image.h:4383-4392 | the result is the neighbour nearest to a+b-c, ties to a, then b, then c |
| PngFilter.FilterRoundTrip | client/resources/stb_image.h:4442-4507 | undoing each of the five filters inverts applying it, for every row and prior row |
| PngFilter.SyntheticFilters | client/resources/stb_image.h:4374-4381 | the first-row substitutes and the first-pixel forms equal the ordinary filters over zeros |
| PngFilter.FlatRecon | client/resources/stb_image.h:4474-4507 | filtering byte by byte and pixel by pixel is the same |
| PngImage.ImageRoundTrip | client/resources/stb_image.h:4423-4519 | decoding inverts encoding for every image and every choice of filter per row |
| PngImage.PlainRow | client/resources/stb_image.h:4442-4492 | the in-place row loop writes the reconstruction of the row from the row above and nothing else |
| PngImage.AlphaPixels | client/resources/stb_image.h:4442-4508 | the alpha-inserting loop writes the same pixels with 255 after each, though its neighbours lie further apart |
| PngImage.AlphaLowBytes | client/resources/stb_image.h:4510-4517 | at 16 bits the second pass makes each alpha 255, 255 and touches nothing else |
| PngImage.CreateImageRaw | client/resources/stb_image.h:4397-4519 | at 8 or 16 bits with or without alpha: the decoded rows, or not-enough-pixels or invalid-filter exactly when they apply |
| PngMeaning.DecodedByte | client/resources/stb_image.h:4397-4507 | every byte of a decoded image, modulo 256, is the byte at its place in the data plus what its row's filter type predicts from the decoded bytes to its left, above, and above to its left, with zeros outside the image (RFC 2083 section 6) |
| PngMeaning.PredictIs | client/resources/stb_image.h:4383-4507 | the five predictions: nothing, left, above, the average rounded down, the nearest to left + above - corner |
| PngMeaning.OnePrediction | client/resources/stb_image.h:4383-4507 | this determines the prediction |
| PngMeaning.BadFilterIff | client/resources/stb_image.h:4426-4429 | decoding fails if and only if the type of some row is above 4 |
| PngMeaning.OutputByte | client/resources/stb_image.h:4411-4519 | the output is row after row and pixel after pixel, each pixel's own bytes and then its alpha |
| Adam7.SizeExact | client/resources/stb_image.h:4624-4629 | the size computed in 32-bit arithmetic is the number of columns or rows that fit, wrap-around included |
| Adam7.PlacedInside | client/resources/stb_image.h:4624-4640 | a pixel of a pass is placed inside the image, and only those |
| Adam7.WrittenOnce | client/resources/stb_image.h:4619-4647 | for every width and height each pixel is written by exactly one pixel of exactly one pass, and nothing outside is |
| Adam7.Deinterlace | client/resources/stb_image.h:4619-4647 | the three nested loops fill the whole image, each pixel from its pass |
| Adam7.InterlaceRoundTrip | client/resources/stb_image.h:4619-4647 | de-interlacing the seven passes of an image gives the image |
| Interlaced.PassesRoundTrip | client/resources/stb_image.h:4619-4647 | seven passes encoded one after the other are cut apart by their computed lengths and decoded again, whatever follows |
| Interlaced.InterlacedRoundTrip | client/resources/stb_image.h:4609-4651 | an image interlaced, filtered row by row of each pass with any filters and encoded is decoded to the same pixels in the same places |
| Interlaced.PassRead | client/resources/stb_image.h:4619-4647 | every pass is decoded as an image of its own from the place where the passes before it end, each as long as its rows, one byte longer than their pixels, and nothing without columns |
| Interlaced.DecodePass | client/resources/stb_image.h:4630-4634 | one pass is decoded from the front of the rest of the data to its rows with alpha, or fails for the reason that applies |
| Interlaced.CreateImage | client/resources/stb_image.h:4609-4651 | the loop over the passes puts every pixel of every pass with its alpha in its place, advancing by `img_len`, or fails exactly if a pass does and for its reason |
| NetMessage.Decode32Encode32 | common/net-message.hpp:98-122 | four little-endian bytes give the 32-bit value back |
| NetMessage.HeaderRoundTrip | common/net-message.hpp:77-94 | a fragment's 16-byte header is decoded to the same four fields |
| NetMessage.HeaderBytes | common/net-message.hpp:89-94 | on the wire come length, type, id and sequence number, four bytes each, least significant first; parts have type 1 and syncs type 0 |
| NetMessage.HeaderIff | common/net-message.hpp:77-85 | any sixteen bytes are read as the header they are, and refused if and only if the length is over 1024 |
| NetMessage.MessageOut.Next | common/net-message.cpp:50-65 | appends one full-sized fragment that carries the message's type and id, turns the one before into a part, and leaves every body alone |
| NetMessage.MessageOut.BackUp | common/net-message.cpp:67-77 | shortens the last fragment only, and ignores counts it cannot give back |
| NetMessage.MessageOut.FromBuffer | common/net-message.cpp:7-32 | appends the data, cut into the fewest fragments, none of them empty |
| NetMessage.MessageOut.GetMessages | common/net-message.cpp:34-48 | numbers the fragments and marks all but the last as parts |
| NetMessage.DecodeMessages | common/net-message.cpp:145-166 | accepts exactly the fragment lists numbered from 0 whose last alone has a type, and finds that type |
| NetMessage.StampComplete | common/net-message.cpp:34-48 | what the sender stamps is accepted, and carries the same body |
| MessageCursor.MessageIn.Next | common/net-message.cpp:168-203 | hands out the next stretch of the joined body, succeeds exactly if bytes remain, and terminates, from every cursor that is not stuck; fragments without data are skipped wherever they are |
| MessageCursor.MessageIn.Find | common/net-message.cpp:168-203 | the loop moves on to the next fragment that has something left, or to the end, in the rounds of the loop stepped one by one |
| MessageCursor.MessageIn.EndsIff | common/net-message.cpp:168-203 | the loop ends if and only if the cursor is not stuck: part of the first data read, and fragments without data before it |
| MessageCursor.MessageIn.NeverStuck | common/net-message.cpp:168-203 | on a list whose first fragment holds data, or none does, no cursor is stuck |
| MessageCursor.MessageIn.BackUp | common/net-message.cpp:205-209 | moves the position back within the current fragment or not at all, on any list |
| MessageCursor.MessageIn.Skip | common/net-message.cpp:211-228 | succeeds exactly if that many bytes remain, moving that far, and otherwise ends at the end |
| MessageCursor.MessageIn.ReadBuffer | common/net-message.cpp:79-105 | copies the smaller of buffer and remaining bytes, leaves the rest of the buffer, and advances by what it copied |
| MessageCursor.MessageIn.ReadString | common/net-message.cpp:107-116 | returns everything not read yet |
| MessageCursor.MessageIn.Reset | common/net-message.hpp:240-243 | the position is 0 again, on any list, and the cursor is not stuck |
| MessageCursor.MessageIn.GetSize | common/net-message.cpp:118-124 | the size of the joined body |
| MessageCursor.MessageIn.ToOut | common/net-message.cpp:136-143 | a received message can be sent on with the same fragments, size, and the type and id it was received with |
| MessageCursor.MessageIn.Decode | common/net-message.cpp:145-166 | succeeds exactly on complete lists, and then the message has the type of the last fragment |
| MessageCursor.UnreadableSpins | common/net-message.cpp:168-203 | when the first fragment is empty and a later one is not, the second `Next` finds no data however long it looks |
| Transport.HandleMessages | server/client-connection.cpp:124-181 | the reader turns the fragments of any sequence of messages into exactly those messages, once each, in order, with nothing left over, whatever ids they share |
| Transport.HandlePrefix | server/client-connection.cpp:124-181 | after any number of fragments what was dispatched is a prefix of what was sent |
| Transport.StepInv | server/client-connection.cpp:32-56 | every step is safe, and keeps one write under way or about to be while anything is queued, none otherwise, and bytes on the wire in order of queueing, if and only if it does not send a message without fragments on an idle connection |
| Transport.EmptyBreaks | client/server-connection.cpp:163-180 | a message without fragments on an idle connection makes a `do_write` due whose `front()` is taken of an empty queue |
| Transport.EmptyDropped | client/server-connection.cpp:163-180 | on a busy connection it changes nothing and adds nothing to what is to be dispatched |
| Transport.RunInv | server/client-connection.cpp:32-56 | the same over every interleaving without such a message |
| Transport.OneWriterIff | client/server-connection.cpp:138-180 | writes are serialised throughout a run if and only if the run sends no message without fragments on an idle connection |
| Transport.Delivered | server/client-connection.cpp:109-181 | in every such run of sends, partial writes, completions and reads, no writes overlap, `front()` is never taken of an empty queue, no header is bad, and the dispatched (type, body) list is a prefix of the list sent |
| Transport.QuietMeansDone | server/client-connection.cpp:279-298 | when no step is left to take in such a run, everything sent has been dispatched |
| Transport.WorkShrinks | client/server-connection.cpp:264-284 | every step but a new message brings that point nearer, so nothing stalls |
| Connections.Connection.QueueWrite | server/client-connection.cpp:44-56 | the locked section is the machine's queueing step, and starts a write exactly if the queue was empty |
| Connections.Connection.BodyRead | client/server-connection.cpp:184-246 | the read handler of either side is the machine's reading step |
| Replication.StepInv | server/server.cpp:57-96 | every handler of the server, user, client and tick keeps each connected client's undelivered messages in step with the entities |
| Replication.RunInv | server/server.cpp:175-187 | the same over every run |
| Replication.Replicated | client/server-connection.cpp:40-50 | in every reachable state, folding the undelivered messages over the view of a client that was sent the world gives exactly the server's entities |
| Replication.UpdatesAfterWorld | server/main.cpp:124-143 | no state update is queued for a client before its world-sent message, which follows a create message for everything the server held then |
| Handshake.StepSends | server/client-connection.cpp:183-277 | what every kind of step adds to the write queue of every client, message by message |
| Handshake.StepEntities | server/server.cpp:175-187 | the server's entities change with created and destroyed events alone, and exactly so |
| Handshake.StepAnswers | client/server-connection.cpp:33-62 | a client handles messages in order; it joins when authenticated, is ready when the world was sent, and its entities change exactly with the messages that name one |
| Handshake.StepReady | server/client-connection.cpp:260-264 | a step makes a client ready, logged in or disconnected if and only if the server reads the message that says so, or drops it |
| Handshake.ReadyIff | server/client-connection.cpp:260-264 | in every run from the start a client is ready if and only if some step read from it that it is |
| Handshake.OutboxIs | server/client-connection.cpp:183-277 | in every run a client's write queue has had exactly what the steps send it, in their order |
| Handshake.UpdatesExact | server/main.cpp:124-143 | in every run its updates are exactly one for each tick taken while it was connected after the server had read that it is ready, with the number of the tick |
| Handshake.FirstUpdate | server/client-connection.cpp:232-268 | a run from connecting over login, join and ready to the first update |
| Handshake.ChatReaches | server/server.cpp:57-72 | a chat message is queued once for every connected client and is the latest of the at most 100 recent ones |
| Batches.BatchIff | client/client-game-state-queue.cpp:113-117 | a call whose two exchanges find the same messages gives what these give in order if and only if no entity's last create in them comes after a destroy |
| Batches.ReusedLost | client/client-game-state-queue.cpp:113-117 | an entity destroyed and created again in one batch is lost |
| Batches.PartedStays | client/client-game-state-queue.cpp:113-115 | an entity created and destroyed between the two exchanges of one call is there for good |
| Batches.OrderIff | client/server-connection.cpp:33-50 | the same events handled in any other order give what their order gives if and only if the last event of every entity is the same |
| Batches.HandledLast | client/client-game-state-queue.cpp:113-115 | after any calls, however many messages each exchange finds, an entity's create has outlived its destroy exactly when some call took the destroy and left the create to a later one |
| Batches.CallsIff | client/client-game-state-queue.cpp:113-115 | once nothing waits the calls have given what the messages give if and only if for every entity this is so exactly when the last create was sent after the last destroy |
| Batches.PartedIff | client/client-game-state-queue.cpp:113-115 | for messages in which no create follows a destroy of the same entity: if and only if no call takes the last destroy of an entity and leaves its last create to a later one |
| Batches.DestroysFirst | client/client-game-state-queue.cpp:113-115 | which is so if each call takes no more destroys than creates, as with the exchanges in the other order |
| Batches.OrderReplicatedIff | client/server-connection.cpp:33-50 | in every run a client that was sent the world and has handled every event, in whatever order, has the server's entities if and only if the last event handled of every entity is the last one sent |
| Batches.CallsReplicatedIff | client/client-game-state-queue.cpp:113-115 | in every run a client that handles its messages in calls has the server's entities once nothing waits if and only if no entity's last create and last destroy change places |
| Batches.PartedReplicatedIff | client/client-game-state-queue.cpp:113-115 | in a run whose server never handles a create after a destroy of the same entity: if and only if no call takes the last destroy and leaves the last create to a later one |
| Batches.PartedReached | server/server.cpp:170-187 | a run with a fresh entity after which the client keeps an entity that the server does not have |
| Batches.SwappedReached | server/server.cpp:170-187 | a run in which the server handles a destroy before the create, after which the client lacks an entity that the server has |
| Servers.Server.Deliver | server/server.cpp:57-70 | queues the message once for every client and keeps the latest saved messages |
| Servers.Server.SaveRecent | server/server.cpp:58-64 | the saved list never exceeds its limit and drops the oldest |
| Servers.Server.SendWorld | server/server.cpp:75-96 | queues greeting, a create message for every entity once, world-sent, then the recent messages |
| Servers.Server.OnEntityCreated | server/server.cpp:175-180 | updates the map and tells every client, as one protocol step |
| Servers.Server.OnEntityDestroyed | server/server.cpp:182-187 | removes from the map and tells every client |
| Servers.Server.OnDisconnect | server/server.cpp:131-158 | a client no longer in the set is ignored; otherwise it leaves the set before its leave message is delivered |
| Servers.Server.SimulationTick | server/main.cpp:112-147 | exactly the ready clients get one update |
| VoxelMesh.CellOfKey | client/voxel-volume.cpp:27-29 | the 64-bit index of a signed 16-bit cell is decoded to the cell |
| VoxelMesh.KeyOfCell | client/voxel-volume.cpp:151-161 | and the other way round |
| VoxelMesh.KeyBits | client/voxel-volume.cpp:27-29 | from its low end an index holds 16 bits of z, of x and of y |
| VoxelMesh.EndsGiveCell | client/voxel-volume.cpp:151-156 | the cell of a block is recovered from its first vertex, whichever way round it stands |
| VoxelMesh.FlipReverses | client/voxel-volume.cpp:147-150 | reversing a block's vertices is flipping it |
| VoxelMesh.OffsetOccurs | client/voxel-volume.cpp:134-140 | a block's offset occurs in the canonical index list first at its own 36 entries and nowhere outside them |
| VoxelMesh.RemovedLoose | client/voxel-volume.cpp:133-166 | moving the last block into a removed one's place keeps side index and blocks in agreement |
| VoxelMesh.UpdatedLoose | client/voxel-volume.cpp:109-168 | so does every turn of the queue-draining loop; it adds or removes exactly the queued index, and doubles a block exactly if a present voxel already had one |
| VoxelMesh.UpdatedSane | client/voxel-volume.cpp:109-168 | whatever was queued and whatever the voxels are, every entry leads to a block of its own index after each turn |
| VoxelMesh.UpdatedCopies | client/voxel-volume.cpp:109-168 | each turn adds one block for a present voxel, removes one of an absent voxel that has an entry, and changes the number of blocks of no other voxel |
| VoxelMesh.OrphanIff | client/voxel-volume.cpp:133-166 | removing a voxel leaves every block with an entry if and only if it had one block; otherwise the rest of its blocks stay without entry |
| VoxelMesh.Readopted | client/voxel-volume.cpp:147-164 | a block without entry that is moved into the place of a removed one gets an entry again |
| VoxelMesh.DrainedKeys | client/voxel-volume.cpp:109-168 | after draining a queue that names every difference the side index has exactly the voxels |
| VoxelMesh.DrainedExact | client/voxel-volume.cpp:109-168 | the side index is a bijection onto the blocks after draining if and only if the queue was effective |
| VoxelMesh.VoxelDrawn | client/voxel-volume.cpp:118-121 | each voxel's block in the vertex list is its cube, in normal or fully reversed order |
| VoxelMesh.Winding | client/voxel-volume.cpp:118-131 | each of the twelve triangles of a block faces along its normals if the block stands in normal order and against them if it is reversed |
| VoxelMesh.Textured | client/voxel-volume.cpp:57-88 | on each face of a voxel the texture goes from left to right and from top to bottom, upright on the four sides; with Winding, not mirrored seen from outside |
| VoxelMesh.BatchExact | client/voxel-volume.cpp:27-45 | any batch of edits followed by an update: one block per voxel again if and only if the batch was effective |
| VoxelMesh.Run | client/voxel-volume.cpp:27-45 | after any run of effective batches the side index is a bijection from the voxels onto the blocks |
| VoxelMesh.RunExactIff | client/voxel-volume.cpp:27-45 | the side index is a bijection after every update of a run if and only if every batch is effective |
| VoxelMesh.AddedTwice | client/voxel-volume.cpp:30 | adding one voxel twice between updates breaks it |
| VoxelMesh.OrphanDrawn | client/voxel-volume.cpp:27-45 | adding a voxel twice, updating, removing it and updating leaves one block drawn and no entry |
| Voxels.VoxelVolume.AddVoxel | client/voxel-volume.cpp:27-35 | queues always, adds if absent |
| Voxels.VoxelVolume.RemoveVoxel | client/voxel-volume.cpp:37-45 | queues always, removes if present |
| Voxels.VoxelVolume.PushBlock | client/voxel-volume.cpp:113-131 | appends the cube's 24 vertices and the next 36 canonical indices |
| Voxels.VoxelVolume.DropIndices | client/voxel-volume.cpp:134-140 | the scan pops 36 indices off the back exactly once and leaves the canonical list |
| Voxels.VoxelVolume.SwapPop | client/voxel-volume.cpp:147-150 | the swap-and-pop loop puts the last 24 vertices, reversed, where the removed ones were |
| Voxels.VoxelVolume.DropBlock | client/voxel-volume.cpp:133-166 | vertices, indices and side index are those of the layout with the block removed |
| Voxels.VoxelVolume.UpdateMesh | client/voxel-volume.cpp:92-176 | for any voxels and queue: empties the queue and leaves vertex and index lists of the drained layout; after an orderly layout with every difference queued, entries for exactly the voxels, and one block each if and only if the queue was effective |
| EventQueues.StepInv | common/event-queue.hpp:51-63 | every step of producers and consumer keeps each emplaced event in exactly one place and in time |
| EventQueues.RunInv | common/event-queue.hpp:51-63 | the same over every interleaving |
| EventQueues.HandledByThen | common/event-queue.hpp:51-63 | between calls, an event since whose emplacement two calls have begun has been handled exactly as often as it was emplaced |
| EventQueues.ProducerReordered | common/event-queue.hpp:51-63 | one producer's two events handled in the opposite order, and the first only in the second call after it |
| EventQueues.StepOrders | common/event-queue.hpp:51-63 | the consumer's steps keep the order in which events will be handled; an emplace inserts its event there, at the end exactly if it does not overtake |
| EventQueues.StaysInverted | common/event-queue.hpp:51-63 | an inversion of two events is never repaired, whatever the later steps |
| EventQueues.InOrderIff | common/event-queue.hpp:51-63 | in every interleaving the order of handling, waiting events included, is the order of emplacement if and only if no emplace goes into the queue to be handled first while the other holds something; once nothing waits this is the order in which all were handled |
| EventQueues.AtomicRunFifo | common/event-queue.hpp:51-63 | with load and emplace in one step, handled, read and write queue together are the events in order of emplacement, and each is handled in exactly the next call begun, never in the one that emitted it |
| EventQueues.HandledInOrder | common/event-queue.hpp:51-63 | the same spelled out from the start: between calls handled followed by write queue is everything emplaced, in order |
| EventQueues.EventQueue.ProcessEventQueue | common/event-queue.hpp:51-60 | handles exactly what was queued before, in order; what handlers emit waits in the write queue |
| EventQueues.EventQueue.QueueEvent | common/event-queue.hpp:63 | appends to the write queue, as two steps of the machine |
| GameStates.ReceivedMonotone | client/client-game-state-queue.cpp:123-132 | a state is accepted exactly if its id exceeds every id that arrived before it |
| GameStates.ReceivedRing | client/client-game-state-queue.cpp:124-126 | the ring holds the latest five accepted states |
| GameStates.RingSlot | client/client-game-state-queue.hpp:46-48 | `GetGameState(k)` is the k-th latest accepted state for k up to five and the number accepted |
| GameStates.StepInv | client/client-game-state-queue.cpp:12-231 | arrivals in any order, ticks, predictions and entity events keep: pending ids increasing and above the base id; every accepted state popped or pending, in order; time accumulated plus one period per popped state equal to the time counted; the ring |
| GameStates.Run | client/client-game-state-queue.cpp:12-231 | the same after every run |
| GameStates.FactorBounds | client/client-game-state-queue.cpp:65-69 | the interpolation factor is in [0, 1) |
| GameStates.LerpBetween | client/client-game-state-queue.cpp:78-79 | each coordinate lies between the two it is mixed from |
| Interpolation.StepBetween | client/client-game-state-queue.cpp:12-231 | every event keeps each shown position, and each velocity and orientation not written by a controller since, either as in the base or exactly as far from the base towards the next pending state as the accumulated time is, where both have it; equal to the base's where the next does not and to the next's where the base does not; nothing of the base is missing and nothing else is shown; orientations by slerp of that same fraction |
| Interpolation.AlwaysBetween | client/client-game-state-queue.cpp:12-231 | the same in every state reached from the start, whatever the arrivals, non-negative deltas, predictions, entity events and controller writes |
| Interpolation.TickBetween | client/client-game-state-queue.cpp:65-110 | a tick that pops nothing leaves base and pending states; shared entities lie between the two, what the next state lacks stays at the base, and once time has accumulated what only the next state has is taken over and controller writes are undone; with no time accumulated nothing is written |
| Interpolation.TickMoves | client/client-game-state-queue.cpp:65-110 | a tick with time t accumulated towards a state k ids ahead shows what both states have at base + (next - base) * 8t / k: positions and both parts of velocities, and orientations by slerp of that same fraction |
| Interpolation.StepsEqual | client/client-game-state-queue.cpp:65-110 | so movement starts at the base, ends at the next state, makes equal steps for equal times and never goes backwards |
| GameStates.TickSettles | client/client-game-state-queue.cpp:59-63 | after a tick less than a period is left unless the states have run out; the base id changes exactly if a state was popped |
| GameStates.BaseIsLastPopped | client/client-game-state-queue.cpp:57-63 | after a tick that pops, the base has the id of the first popped state; that is the last one popped if and only if the time did not pay for two or one state was pending |
| GameStates.FirstIdKept | client/client-game-state-queue.cpp:57-63 | two states received and a tick of 0.25 leave the base with id 1 after popping 1 and 2 |
| Entries.AlwaysCarried | client/client-game-state-queue.cpp:123-132 | in every state reached from the start each pending state has the entries, id and command of the accepted one, but for entries of the client that reading has made |
| Entries.ErrorCorrects | client/client-game-state-queue.cpp:134-171 | the recorded error is what takes the acknowledged prediction to the server's position of one state before and to its velocity; without such a prediction it is zero; predictions up to the command are forgotten |
| Entries.NudgeReduces | client/client-game-state-queue.cpp:175-187 | a new prediction goes an eighth of the recorded error towards the right place, so seven eighths of it are left; one already made is kept |
| Entries.PoppedEntries | client/client-game-state-queue.cpp:31-64 | after a tick that pops, each entry of the base is that of the first popped state, or as it was if that has none, or the predicted one of the client |
| Entries.CreatedEntries | client/client-game-state-queue.cpp:189-222 | of a created entity the last component of each kind is in base and interpolated state, and nothing else changes |
| Entries.DestroyedEntries | client/client-game-state-queue.cpp:224-231 | a destroyed entity is in none of the six tables and every other entry stays |
| Entries.SteeredEntries | common/controllers/fps-controller.cpp:20-51 | a controller writes the shown linear velocity of its entity, and the orientation if it turned, and nothing else |
| Entries.FiveKept | client/client-game-state-queue.cpp:123-127 | the fifth latest accepted state is kept, and the one before it is the one overwritten |
| ClientStates.CopyInto | client/client-game-state-queue.cpp:34-45 | the copying loops overwrite exactly the entries of the new state |
| ClientStates.BlendInto | client/client-game-state-queue.cpp:75-108 | the mixing loops treat every entry once, from the old values |
| ClientStates.ClientGameStateQueue.QueueServerState | client/client-game-state-queue.cpp:123-132 | the handler is the model's arrival, ring and prediction check included |
| ClientStates.ClientGameStateQueue.CheckPredictionResult | client/client-game-state-queue.cpp:134-171 | forgets exactly the predictions up to the acknowledged command and records the error of that one; the queued state gains the client's own entries |
| ClientStates.ClientGameStateQueue.UpdatePredictions | client/client-game-state-queue.cpp:175-187 | nudges by an eighth of the error and keeps a prediction already made for the command |
| ClientStates.ClientGameStateQueue.Interpolate | client/client-game-state-queue.cpp:12-111 | the tick is the model's tick in both branches |
| ClientStates.ClientGameStateQueue.PopPaid | client/client-game-state-queue.cpp:59-63 | pops as many states as the accumulated time pays for, noting the first one's id |
| ClientStates.ClientGameStateQueue.GetGameState | client/client-game-state-queue.hpp:46-48 | reads the ring in unsigned arithmetic and finds the k-th latest |
| ClientStates.ClientGameStateQueue.OnEntityCreated | client/client-game-state-queue.cpp:189-222 | sets the components in base and interpolated state alike |
| ClientStates.ClientGameStateQueue.OnEntityDestroyed | client/client-game-state-queue.cpp:224-231 | removes the entity from both |
| PathForm.SegmentsConcat | common/filesystem.cpp:229 | splitting at slashes splits each side of a slash on its own |
| PathForm.ResolveAgain | common/filesystem.cpp:229-246 | resolved elements resolve to themselves |
| PathForm.ResolveAfter | common/filesystem.cpp:229-246 | later elements see earlier ones only through the stack |
| PathForm.UpUpCancels | common/filesystem.cpp:236-239 | in a relative path two leading `..` vanish |
| PathMeaning.ClimbsIff | common/filesystem.cpp:233-236 | the segments that are not `..` and that trimming makes `..` are two dots followed by one or more dots and spaces |
| PathMeaning.AbsoluteIff | common/filesystem.cpp:229-246 | from every directory the code resolves segments as they should be, where only `..` goes up, if and only if there is no such segment |
| PathMeaning.DotsClimb | common/filesystem.cpp:229-246 | `/a/.../b` and `a/.../b` are resolved to `b` |
| PathMeaning.KeepsParity | common/filesystem.cpp:229-246 | of the n uncancelled leading `..` that the code reads in a relative path it keeps the remainder of n by two, and everything after them |
| PathMeaning.ResolvesIff | common/filesystem.cpp:229-246 | a relative path without such segments is resolved to what it means if and only if at most one leading `..` is left |
| PathMeaning.PlacedStd | common/filesystem.cpp:229-246 | from every directory the uncancelled steps up and the names of a path lead where the path leads |
| PathMeaning.FromEveryIff | common/filesystem.cpp:229-246 | a relative path, normalised first, leads where it should from every directory if and only if it is resolved to what it means |
| PathMeaning.MeaningKeptIff | common/filesystem.cpp:229-246 | a relative path and every path on the way, normalised first, lead where they should from every directory if and only if there is no such segment and at most one leading `..` is left |
| PathForm.ReadRendered | common/filesystem.cpp:247-273 | reading the rebuilt path gives the same elements, absoluteness and final slash |
| PathForm.NormalTwice | common/filesystem.cpp:206-274 | normalising is idempotent |
| PathForm.PrefixFirst | common/filesystem.cpp:206-274 | normalising a prefix before appending a raw tail gives the same path as normalising once, for all strings |
| PathForm.NormalSegments | common/filesystem.cpp:206-274 | a normal path has no empty or dot element, and `..` only as first element of a relative path |
| PathForm.ElementIff | common/filesystem.cpp:231-235 | the elements of normal paths are those without slash, not `.`, that do not end in a dot or space or have at most two characters |
| PathForm.DotEndingIff | common/filesystem.cpp:233-235 | an element that ends in a dot or a space occurs in some normal path if and only if it has at most two characters and is not `.` |
| Paths.NormalizedTwice | common/filesystem.cpp:206-274 | the same for device and path together |
| Paths.SpecialRender | common/filesystem.cpp:264-269 | a rebuilt path is flagged exactly if one of its elements has a forbidden character |
| PathChars.ValidIff | common/filesystem.cpp:264-269 | a string is parsed to a valid path if and only if it is not empty and no element left after resolving has a character with code below 32 or one of : > * ? " < and the vertical bar |
| PathChars.OneName | common/filesystem.cpp:264-269 | a slash and one name: the characters of the name decide |
| PathChars.SplitIff | common/filesystem.cpp:58-75 | a device is one or more of A to Z and a to z, and a colon; it is taken off exactly, and what is left is made absolute |
| PathChars.DeviceIff | common/filesystem.cpp:58-61 | whether and where a device ends, by these characters |
| PathChars.SlashesAlike | common/filesystem.cpp:206-210 | slash and backslash are the same in every path |
| Paths.ParseWellFormed | common/filesystem.cpp:58-75 | a parsed path is normal, and if valid has no device or a device and an absolute path |
| Paths.AppendWellFormed | common/filesystem.hpp:382-405 | appending keeps that |
| Paths.AppendJoins | common/filesystem.hpp:382-405 | appending gives the normal form of both paths with one slash between, whichever slashes they bring; it throws exactly when something with a device is appended to a path that is not empty |
| Paths.BaseWellFormed | common/filesystem.cpp:122-139 | so does taking the containing path |
| Paths.BaseElements | common/filesystem.cpp:122-139 | which has all elements if there was a final slash and all but the last otherwise |
| Paths.ReadBack | common/filesystem.hpp:327 | parsing the printed form of a well-formed valid path gives the path |
| Paths.BuiltReadBack | common/filesystem.hpp:327-337 | so for every valid path that construction, appending and containing paths can build; and a device implies an absolute path |
| Paths.NativeIff | common/filesystem.cpp:276-312 | a native form exists exactly for valid paths without device, or with device `assets:` and a base without device |
| Paths.AssetElements | common/filesystem.cpp:282-287 | the native form of an assets path has the base's elements followed by the path's own |
| FilePaths.FilePath.SetDevice | common/filesystem.cpp:58-75 | splits off the device and makes the rest absolute, overwriting the colon when there is no slash |
| FilePaths.FilePath.ResolvePath | common/filesystem.cpp:215-246 | the piece-by-piece loop leaves the stack of the whole path |
| FilePaths.FilePath.NormalizePath | common/filesystem.cpp:206-274 | rewrites device and path to the normal form |
| FilePaths.FilePath.AppendPath | common/filesystem.hpp:382-405 | appends and normalises, or throws leaving the path alone |
| FilePaths.FilePath.Base | common/filesystem.cpp:122-139 | cuts at the last slash up to the final position |
| FilePaths.FilePath.Assign | common/filesystem.hpp:345-351 | assigning a string forgets the old device |

## Left out

- Inflate.ZBuf.DoZlib: an input on which the loop of some block does not end, on which the source does not return, is excluded; Determined.BlockEndsIff says which.
- Inflate.ZBuf.ParseBlocks: such input is excluded.
- Inflate.ZBuf.ParseHuffmanBlock: such input is excluded.
- Inflate.ZBuf.Expand: the allocator refuses beyond a given size, so that expansion can fail; the source stops at the address space. The block loop's local copy of the output pointer is not modelled.
- PngImage.CreateImageRaw: the final pass to host byte order at 16 bits and depths below 8 are not modelled.
- Adam7.Deinterlace: pixels are moved as values, not by copying bytes; the passes are an argument here and decoded in Interlaced.CreateImage.
- Interlaced.CreateImage: pixels are moved as values; depths below 8 and host byte order as for PngImage.CreateImageRaw.
- Transport.Delivered: read and write errors, disconnects and `Reset` by the peer are not steps; a `SYNC` message to the client must be a single fragment, because its handler runs before reassembly. A run that sends a message without fragments on an idle connection is excluded; Transport.OneWriterIff says what it does.
- NetMessage.MessageOut.GetMessages: fragments are values, so two lists that share fragments through pointers are not.
- MessageCursor.MessageIn.Next: pushing a fragment while reading is not modelled, and a stuck cursor, on which the source does not return, is excluded; MessageCursor.MessageIn.EndsIff says that no other is.
- MessageCursor.MessageIn.Skip: a cursor that gets stuck on the way, on which the source does not return, is excluded.
- MessageCursor.MessageIn.ReadBuffer: a cursor that gets stuck on the way, on which the source does not return, is excluded.
- MessageCursor.MessageIn.ReadString: a list whose first fragment is empty while a later one holds data, on which the source does not return, is excluded.
- Replication.Replicated: each server handler is one atomic step and entity ids are non-zero and below 2^31, where printing and `atoi` are inverse. Entities the client makes for itself are not modelled.
- Batches.CallsIff: each message is queued at once; delays between a producer's pointer load and its emplace are in Batches.OrderIff, which takes any order.
- Servers.Server.SimulationTick: which clients get a full update and which a difference, the confirmed state ids that decide it, and the contents of either; the difference is only added to, never reset.
- Voxels.VoxelVolume.UpdateMesh: vertex coordinates are integers and offsets unbounded; materials and mesh invalidation are not modelled.
- EventQueues.EventQueue.ProcessEventQueue: the object is used by one thread; interleavings are those of the state machine.
- ClientStates.ClientGameStateQueue.Interpolate: floating-point rounding is not modelled and slerp is a parameter; the entries that reading creates in a stored prediction are not kept, and logging is left out.
- Interpolation.AlwaysBetween: what a controller writes to the interpolated velocity and orientation of its entity (common/controllers/fps-controller.cpp:20-27, 50-51) is an event, and that entry is apart until a tick writes it again; slerp is any function of two quaternions and a factor.
- GameStates.StepInv: real numbers stand for float and double here and in the other results on time and coordinates, so rounding is left open.
- GameStates.RingSlot: for fewer than 2^31 accepted states; beyond that the index overflows.
- FilePaths.FilePath.AppendPath: appending a path object to itself is not modelled.
- Paths.NativeIff: the branch for systems without devices; locating the assets directory is a parameter.
- The other image formats, SIMD kernels, file callbacks, PNG chunk parsing, palettes and transparency keys.
- `Subpath`, `SubpathFrom`, file names and extensions, wide strings, and everything that touches the file system.
- Rendering, audio, physics, Lua, login decisions, protobuf encoding, sockets, clocks and logging.
