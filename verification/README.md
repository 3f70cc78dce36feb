# Rukkit in Dafny

A model of the parts of the Rukkit server where a fast or stateful form stands for a simple one, with
proofs that it does. `dafny verify dfyconfig.toml` checks the whole project. Beside the theorems that relate
two forms stand laws that say in plain numbers, bytes and ids what each form is: widths and cell counts, which
frames and packets are accepted and what becomes of the others, who hears what.

**Chunk storage.** A tower of refinements. `Words` has 64-bit words as bits; `BitStorages` packs entries
into words and finds the cell by multiply-and-shift; `Palettes` keeps an array as one id, a palette with
packed slots, or packed ids; `Chunks` stacks sections into a column with two heightmaps; `Generators`
fills a column; `ChunkWires` is the network form. The central fact is that the representation of a
container is a function of two things: its array, and the ids it has noticed in order since it was last
filled or shrunk (`Render`). What follows for behaviour, width, canonical form and wire bytes is proved
about that function, and the container's methods are proved to keep it.

**Framing.** `Bytes`, `Varints`, `Crypts`, `Codecs` and `SecureCodecs`. One decode is a function of the
buffer (`Pull`), repeated decoding is `Drain`, any interleaving of feeding and decoding is `Follow`; the
encoder and decoder objects are proved against these. Three facts of the code are stated as they are: an empty packet
under threshold 0 does not come back; frames below the threshold have no size check; the compressed branch
checks the frame and not the packet. The condition under which a packet comes back is exact
(`Recoverable`). `SecureCodecs` adds the cipher: the stream law holds for the ciphertext under any cutting
with a feed boundary at the switch, and without one the decoder is fed the wrong bytes unless the first
keystream byte is zero.

**NBT and text.** `ModifiedUtf8s`, `Nbts`, `NbtIos` and `Texts`. Reading what was written is described for
every lawful tree, including those that are refused and those whose strings are cut; reading arbitrary
bytes gives only lawful trees. Floats are bit patterns.

**Connections.** `Players`, `Connections`, `LoginFlows`, `Stages`, `ConnectionRuns` and `Lobbies`. A connection
is a machine whose steps lie between two points where the program may be suspended; any number of them
interleave over one registry. Inputs are whatever the surroundings do: chunks of bytes, silence, failed
reads, writes that stop in the middle of a frame. The program itself, with its loops and early returns, is
a set of methods over a script of what the socket does and a list of what the others make of the registry.
Given both, the machine has one run, and the program ends where it ends; and every interleaving is one in
which each connection has that run for a script and company of its own (`Lobbies.EveryRunIsScripted`).
So what holds of the machine holds of the program.

zlib is a pair of functions with `inflate(deflate(x)) = x` and a non-empty result; the AES block function
is any function; `offline_uuid` is any injective function; packet bodies other than that of SetCompression
are parameters (`Formats`), those sent after login begins no longer than MAX_FRAME_LEN - 6 bytes. A server
meeting these assumptions exists (`Connections.LawfulServerExists`). Panics are preconditions:
an index out of range, and an id too wide for inline storage when a container has or needs it (`Legal`); any
other `u32` id is accepted. Local coordinates below 16, named block
states below `total_states`, a height that is a multiple of 16 and `min_y + height`
within `i32` are assumptions.

Where code and comments differ the code is followed: `MAX_FRAME_LEN` is documented as a hard cap on every
frame (`codec.rs:23`), but a frame below the compression threshold is written without that check
(`Codecs.OversizedFrames`).

## Model

| member | source | states |
|---|---|---|
| `Words.ReadField` | `crates/rukkit-world/src/bitstorage.rs:128-133` | shift right, mask, truncate to 32 bits reads exactly the bits of the field, whatever else the cell holds |
| `Words.WriteField` | `crates/rukkit-world/src/bitstorage.rs:141-156` | clear with the shifted mask, then or in the value: the field becomes the value and every other bit of the cell is as it was |
| `BitStorages.ReciprocalDivision` | `crates/rukkit-world/src/bitstorage.rs:199-202` | for every divisor 2..=64 and index below 2^26 the multiplication stays below 2^64 and the shifted product is the true quotient |
| `BitStorages.CellAndSlot` | `crates/rukkit-world/src/bitstorage.rs:117-133` | cell and slot computed with the reciprocal are quotient and remainder of the index |
| `BitStorages.PokeUnpacks` | `crates/rukkit-world/src/bitstorage.rs:141-156` | overwriting one field changes that entry of the unpacked sequence and no other |
| `BitStorages.PokeKeepsPadding` | `crates/rukkit-world/src/bitstorage.rs:141-156` | overwriting one field changes no padding bit, neither above the last slot of a cell nor in slots past the length |
| `BitStorages.UnpackPack` | `crates/rukkit-world/src/bitstorage.rs:32-65` | packed entries unpack to themselves and leave all padding zero |
| `BitStorages.PackUnpack` | `crates/rukkit-world/src/bitstorage.rs:32-65` | cells with zero padding are determined by their entries |
| `BitStorages.UnpackFits` | `crates/rukkit-world/src/bitstorage.rs:128-133` | every entry of any cells, dirty padding included, is below 2^bits |
| `BitStorages.LayoutInNumbers` | `crates/rukkit-world/src/bitstorage.rs:32-58` | a cell holds 64 / bits entries: so many fit in 64 bits, and one more would not |
| `BitStorages.CellsInNumbers` | `crates/rukkit-world/src/bitstorage.rs:32-40` | the cells required are the entries divided by 64 / bits, rounded up |
| `BitStorages.EntryInNumbers` | `crates/rukkit-world/src/bitstorage.rs:117-133` | with n = 64 / bits, entry cell * n + slot is the number in bits slot * bits and up of that cell |
| `BitStorages.BitStorage.constructor` | `crates/rukkit-world/src/bitstorage.rs:49-65` | a new storage has the given length and width, ceil(len / (64 / bits)) cells, all entries 0, and no padding bit set |
| `BitStorages.BitStorage.FromData` | `crates/rukkit-world/src/bitstorage.rs:72-90` | cells are accepted exactly when width and length are in range and there are ceil(len / (64 / bits)) of them; they are kept as they are |
| `BitStorages.BitStorage.Get` | `crates/rukkit-world/src/bitstorage.rs:128-133` | reads the entry of the sequence the cells stand for |
| `BitStorages.BitStorage.Set` | `crates/rukkit-world/src/bitstorage.rs:141-156` | the sequence with one entry replaced, the old entry returned, padding untouched |
| `BitStorages.BitStorage.ForEach` | `crates/rukkit-world/src/bitstorage.rs:163-176` | visits exactly the entries, in order, also on cells with dirty padding |
| `BitStorages.BitStorage.Remap` | `crates/rukkit-world/src/bitstorage.rs:183-189` | a new storage of the other width holding `f` of every entry, padding clear |
| `Powers.BitsForIsLeast` | `crates/rukkit-world/src/palette.rs:363-368` | `bits_for` is at least 1 and the least width whose ids number at least `count` |
| `Palettes.WidthIsLeast` | `crates/rukkit-world/src/palette.rs:166-205` | the Indirect width is the least one that is permitted and has room for the palette |
| `Palettes.WidthBounds` | `crates/rukkit-world/src/palette.rs:166-205` | the width has room for the palette, and stays in the Indirect range exactly while at most 2^max_indirect_bits ids are known |
| `Palettes.BlocksInNumbers` | `crates/rukkit-world/src/palette.rs:24-59` | 4096 block states: one id noticed is stored as such; 2 to 256 in a palette with slots of 4, 5, 6, 7 or 8 bits, the least that do; more than 256 inline |
| `Palettes.BiomesInNumbers` | `crates/rukkit-world/src/palette.rs:24-59` | 64 biomes: one id noticed is stored as such; 2 to 8 in a palette with slots of 1, 2 or 3 bits, the least that do; more than 8 inline |
| `Palettes.RenderReads` | `crates/rukkit-world/src/palette.rs:127-134` | reading the representation of any coherent state gives back its array, through all three forms |
| `Palettes.ApplyKeepsCoherent` | `crates/rukkit-world/src/palette.rs:141-306` | every write that does not panic keeps the invariant: the noticed ids are distinct `u32`s and include every id stored, and inline ids fit the direct width |
| `Palettes.FittingIsLegal` | `crates/rukkit-world/src/palette.rs:141-211` | a container whose ids have the direct width takes any other such id without panicking |
| `Palettes.Run` | `crates/rukkit-world/src/palette.rs:82-306` | the invariant holds after every history of `set`, `fill` and `shrink` from any `filled` container, up to the first write that panics |
| `Palettes.NoticedAsWritten` | `crates/rukkit-world/src/palette.rs:141-205` | in a history of writes the palette lists the ids in the order in which each was first written |
| `Palettes.WhenSetPanics` | `crates/rukkit-world/src/palette.rs:141-205` | a write panics exactly when the index is past the end, or the container holds ids inline, or has to, and one of the ids is too wide |
| `Palettes.SetNarrowsOnlyPastAPalette` | `crates/rukkit-world/src/palette.rs:141-205` | a `set` narrows the container exactly when it takes a full palette to inline ids narrower than its slots; in every other case the width does not fall |
| `Palettes.IdsBounded` | `crates/rukkit-world/src/palette.rs:141-205` | distinct ids below 2^bits are at most 2^bits in number |
| `Palettes.SameShapeIff` | `crates/rukkit-world/src/palette.rs:141-306` | two histories leave the same representation, cells included, exactly when the arrays agree and the ids were noticed in the same order or are too many for a palette |
| `Palettes.ShrunkIsCanonical` | `crates/rukkit-world/src/palette.rs:271-306` | after `shrink` the representations of any two histories are equal exactly when their arrays are |
| `Palettes.ShrunkIsNarrowest` | `crates/rukkit-world/src/palette.rs:271-306` | after `shrink` the palette holds exactly the distinct ids, and the container is wider than before exactly when it had inline ids narrower than the narrowest slots and has more than one id left; in every other case it is no wider |
| `Palettes.FirstsAreTheIds` | `crates/rukkit-world/src/palette.rs:275-281` | the first-occurrence list is duplicate-free and holds exactly the ids present |
| `Palettes.FirstsInOrder` | `crates/rukkit-world/src/palette.rs:275-281` | and lists them in the order of their first positions |
| `Palettes.PalettedContainer.constructor` | `crates/rukkit-world/src/palette.rs:82-88` | a filled container is the uniform array with one noticed id |
| `Palettes.PalettedContainer.ShapeIsRendered` | `crates/rukkit-world/src/palette.rs:61-79` | the representation in memory, cells included, is a function of the array and the noticed ids alone |
| `Palettes.PalettedContainer.Get` | `crates/rukkit-world/src/palette.rs:127-134` | `get` is the flat array |
| `Palettes.PalettedContainer.Set` | `crates/rukkit-world/src/palette.rs:141-205` | `set` is the flat write, returns the old value, and notices the new id once, through Single, every widening and Direct, for every id that does not make it panic |
| `Palettes.PalettedContainer.Widen` | `crates/rukkit-world/src/palette.rs:184-195` | re-encoding at the next width keeps the array apart from the one write |
| `Palettes.PalettedContainer.GoDirect` | `crates/rukkit-world/src/palette.rs:196-203` | conversion to inline ids keeps the array apart from the one write |
| `Palettes.PalettedContainer.Fill` | `crates/rukkit-world/src/palette.rs:209-211` | `fill` is a filled container again |
| `Palettes.PalettedContainer.ForEach` | `crates/rukkit-world/src/palette.rs:214-226` | visits exactly the array, in order |
| `Palettes.PalettedContainer.Count` | `crates/rukkit-world/src/palette.rs:234-264` | counting through the palette is counting entry by entry |
| `Palettes.CountIsCardinality` | `crates/rukkit-world/src/palette.rs:234-264` | that is the number of positions whose id passes |
| `Palettes.PalettedContainer.Shrink` | `crates/rukkit-world/src/palette.rs:271-306` | `shrink` keeps every entry and leaves as noticed ids the first-occurrence list |
| `Blocks.BlockStates.DirectWidthCovers` | `crates/rukkit-world/src/block.rs:47-49` | `direct_bits` is within 1..=32 and every state id is below 2^direct_bits |
| `Blocks.BlockStates.DirectWidthIsLeast` | `crates/rukkit-world/src/block.rs:47-49` | it is the least width, of 1 or more, at which every state has an id |
| `Chunks.HeightLimits.HeightFits` | `crates/rukkit-world/src/chunk.rs:55-58` | every height from 0 to `height` fits the heightmap width, which `BitStorage` accepts |
| `Chunks.HeightLimits.HeightWidthIsLeast` | `crates/rukkit-world/src/chunk.rs:55-58` | it is the least width, of 1 or more, that tells height + 1 values apart |
| `Chunks.SectionIndexBijection` | `crates/rukkit-world/src/chunk.rs:64-66` | the index is a bijection between local positions and 0..4096, in Y-Z-X order |
| `Chunks.WithRowReads` | `crates/rukkit-world/src/chunk.rs:269-284` | a write at one position changes what is read there and nowhere else in the column |
| `Chunks.ChunkSection.NonAirCount` | `crates/rukkit-world/src/chunk.rs:121-123` | the count field is the number of non-air entries of a per-entry sweep |
| `Chunks.ChunkSection.IsEmpty` | `crates/rukkit-world/src/chunk.rs:127-129` | empty exactly when every entry is air |
| `Chunks.Chunk.constructor` | `crates/rukkit-world/src/chunk.rs:211-221` | a new column has height / 16 sections, all air and biome 0, and heights of 0; its sections and heightmaps are separate objects |
| `Chunks.Chunk.Block` | `crates/rukkit-world/src/chunk.rs:257-265` | reads the stacked sections by absolute height, and air outside the limits |
| `Chunks.Chunk.SetBlock` | `crates/rukkit-world/src/chunk.rs:269-284` | writes one block and returns the old one, heights and biomes untouched; outside the limits nothing changes and air is reported |
| `Chunks.Chunk.FittingIsTaken` | `crates/rukkit-world/src/chunk.rs:269-284` | a section of ids of the direct width takes any other such id |
| `Chunks.Chunk.FillSection` | `crates/rukkit-world/src/chunk.rs:101-103` | one section becomes uniform and the others stay |
| `Chunks.Chunk.Shrink` | `crates/rukkit-world/src/chunk.rs:344-348` | both containers of every section are left with the ids they hold as their palette order; no block, biome or height changes |
| `Chunks.ScanIsHighest` | `crates/rukkit-world/src/chunk.rs:522-536` | the naive scan is one above the highest non-air block of the column, or 0 when there is none |
| `Chunks.EmptySectionStep` | `crates/rukkit-world/src/chunk.rs:305-312` | skipping a section of air changes no column |
| `Chunks.RowStep` | `crates/rukkit-world/src/chunk.rs:314-332` | recording a row only in columns still at the sentinel 0 keeps the heights those of the part scanned so far |
| `Chunks.Chunk.RecomputeHeightmaps` | `crates/rukkit-world/src/chunk.rs:294-341` | with section skipping, early exit and the zero sentinel, both maps hold in every column exactly what the naive scan finds |
| `Generators.FlatGenerator.IsUniform` | `crates/rukkit-world/src/generator.rs:72-73` | the fast path is taken exactly when all sixteen layers of the section are the same block |
| `Generators.FlatGenerator.LaySections` | `crates/rukkit-world/src/generator.rs:62-99` | each section, filled at once or row by row, holds the block of its height everywhere |
| `Generators.FlatGenerator.Generate` | `crates/rukkit-world/src/generator.rs:46-99` | in every column the bottom row is bedrock, the row at surface_y above it grass, those between dirt down to the dirt floor and stone below it, and those above the surface air; both heightmaps are the naive scan, and over solid ground every column is clamp(surface_y, min_y, max_y) - min_y + 1 |
| `Generators.FlatGenerator.FlatHeight` | `crates/rukkit-world/src/generator.rs:46-58` | the height a naive scan finds over solid ground is that of the surface, held within the limits |
| `Generators.FlatGenerator.LayerLaw` | `crates/rukkit-world/src/generator.rs:46-58` | what each layer is made of; the dirt begins the given depth under the surface, or 2^32 away when that is no `i32` |
| `ChunkWires.ShapeRoundTrip` | `crates/rukkit-world/src/palette.rs:309-331` | the representation read from the written container, whatever follows it, is the one written exactly when inline ids, if used, are wider than any slot; its entries are the array |
| `ChunkWires.FittingIsReadable` | `crates/rukkit-world/src/palette.rs:309-331` | that is so whenever all noticed ids have the direct width |
| `ChunkWires.CellBytes` | `crates/rukkit-world/src/palette.rs:309-331` | every cell is eight bytes, the most significant first |
| `ChunkWires.KnownBytes` | `crates/rukkit-world/src/palette.rs:309-331` | a container of each of the three forms, byte by byte |
| `ChunkWires.UnreadableHistory` | `crates/rukkit-world/src/palette.rs:309-331` | a history for which it is not so |
| `ChunkWires.ShrunkIsReadable` | `crates/rukkit-world/src/palette.rs:271-331` | after `shrink` every container is readable, however narrow its inline ids |
| `ChunkWires.ShrunkBytesAgree` | `crates/rukkit-world/src/palette.rs:271-331` | after `shrink` any two histories write the same bytes exactly when they hold the same array |
| `ChunkWires.WireLenIsLength` | `crates/rukkit-world/src/palette.rs:334-351` | `wire_len` is the number of bytes written |
| `ChunkWires.SectionRoundTrip` | `crates/rukkit-world/src/chunk.rs:139-144` | a reader recovers count, blocks and biomes of a readable section and leaves what follows |
| `ChunkWires.SectionBytes` | `crates/rukkit-world/src/chunk.rs:139-144` | a section starts with the number of its non-air blocks in two bytes, then the blocks, then the biomes at a direct width of 6 |
| `ChunkWires.SectionsRoundTrip` | `crates/rukkit-world/src/chunk.rs:355-359` | a reader recovers the whole list of readable sections |
| `ChunkWires.ShrunkChunkRoundTrip` | `crates/rukkit-world/src/chunk.rs:344-359` | a chunk after `shrink` is always read back, section by section, from what is written |
| `ChunkWires.SectionsLength` | `crates/rukkit-world/src/chunk.rs:363-365` | `sections_wire_len` is the number of bytes `write_sections` appends |
| `ChunkWires.WriteContainer` | `crates/rukkit-world/src/palette.rs:309-331` | the writer appends exactly the wire form of the representation |
| `ChunkWires.StatesOf` | `crates/rukkit-world/src/chunk.rs:355-359` | the sections of a valid chunk are writable states whose contents are the blocks of the column |
| `ChunkWires.WriteChunk` | `crates/rukkit-world/src/chunk.rs:355-359` | the writer appends the wire form of all sections, bottom up |
| `Bytes.SignedRoundTrip` | `crates/rukkit-protocol/src/varint.rs:38-48` | casting a signed value to unsigned and back is the identity |
| `Bytes.BigEndianRoundTrip` | `crates/rukkit-protocol/src/writer.rs:30-52` | big-endian bytes of an n-byte value read back as the value |
| `Bytes.BigEndianDigit` | `crates/rukkit-protocol/src/writer.rs:30-52` | byte k of n is the digit of weight 256^(n - 1 - k) |
| `Varints.VarintRoundTrip` | `crates/rukkit-protocol/src/varint.rs:23-98` | for every `i32` and any bytes after it: reading gives the value and its length, the closed-form length is exact and at most 5, and every proper prefix is reported as end of input |
| `Varints.VarlongRoundTrip` | `crates/rukkit-protocol/src/varint.rs:31-132` | the same for every `i64`, with at most 10 bytes |
| `Varints.VarLenIsLength` | `crates/rukkit-protocol/src/varint.rs:23-34` | the closed form from the position of the top bit is the length of the written form |
| `Varints.VarBytesFit` | `crates/rukkit-protocol/src/varint.rs:23-34` | a value takes at most n bytes exactly when it is below 2^(7n) |
| `Varints.VarBytesDigit` | `crates/rukkit-protocol/src/varint.rs:38-62` | byte k carries bits 7k to 7k + 6, and its top bit is set exactly when another byte follows |
| `Varints.VarintRefusals` | `crates/rukkit-protocol/src/varint.rs:67-98` | a VarInt is refused exactly when none of the first five bytes ends it: as incomplete while fewer have come, else as too long |
| `Varints.VarintInNumbers` | `crates/rukkit-protocol/src/varint.rs:67-98` | the value of any accepted bytes, padded or not: seven bits from each of the first four and four bits from a fifth |
| `Varints.WrittenIsShortest` | `crates/rukkit-protocol/src/varint.rs:67-132` | no accepted byte string, padded or with dropped top bits, is shorter than the written form of what it decodes to |
| `Varints.ReadVarStable` | `crates/rukkit-protocol/src/varint.rs:67-132` | bytes that follow never change a result other than end of input |
| `Varints.WriteVar` | `crates/rukkit-protocol/src/varint.rs:38-62` | the writing loop appends the written form |
| `Varints.ReadVarLoop` | `crates/rukkit-protocol/src/varint.rs:67-132` | the reading loop with its shift and byte limit computes the specified value, length or error |
| `Crypts.XorUndoes` | `crates/rukkit-protocol/src/crypt.rs:47-88` | adding the same keystream byte twice is the identity |
| `Crypts.XorBits` | `crates/rukkit-protocol/src/crypt.rs:47-88` | a bit is set exactly where the two bits differ |
| `Crypts.RegisterIsWindow` | `crates/rukkit-protocol/src/crypt.rs:47-88` | the register is the last bytes of what it held and the ciphertext since |
| `Crypts.EncipherByte` | `crates/rukkit-protocol/src/crypt.rs:47-55` | ciphertext byte i is plaintext byte i combined with the keystream byte of the window of ciphertext before it |
| `Crypts.DecipherInverts` | `crates/rukkit-protocol/src/crypt.rs:80-88` | for any block function, deciphering with the same secret inverts enciphering |
| `Crypts.EncipherSplits` | `crates/rukkit-protocol/src/crypt.rs:47-55` | enciphering in two calls with the state kept is enciphering once |
| `Crypts.ChunksEncipherAsWhole` | `crates/rukkit-protocol/src/crypt.rs:47-55` | enciphering in any number of calls with the state kept is enciphering once |
| `Crypts.ChunksDecipherAsWhole` | `crates/rukkit-protocol/src/crypt.rs:80-88` | deciphering chunk by chunk with the state kept is deciphering the whole |
| `Crypts.AnyCuttingInverts` | `crates/rukkit-protocol/src/crypt.rs:47-88` | data enciphered in any number of calls and deciphered under any other cutting comes back |
| `Crypts.LateDeciphering` | `crates/rukkit-protocol/src/crypt.rs:47-88` | with the first k bytes taken undeciphered, the first is right exactly when its keystream byte is zero, and unless it is, the data comes back exactly when k is 0 |
| `Crypts.Encryptor.Encrypt` | `crates/rukkit-protocol/src/crypt.rs:47-55` | enciphers in place from the given offset, leaves what precedes it, and ends in the state after the last byte |
| `Crypts.Decryptor.Decrypt` | `crates/rukkit-protocol/src/crypt.rs:80-88` | deciphers in place and ends in the state after the last byte |
| `Codecs.FrameRoundTrip` | `crates/rukkit-protocol/src/codec.rs:95-251` | a frame the encoder wrote is given back, with what follows it untouched, exactly when the packet size is recoverable: any size without compression; up to MAX_FRAME_LEN - 1 below the threshold; 1 to MAX_FRAME_LEN at or above it |
| `Codecs.BodyAccepted` | `crates/rukkit-protocol/src/codec.rs:117-150` | under compression any frame at all is accepted as p exactly when its length field reads 0 and p is the rest, or reads the size of p, at least 1 and the threshold and at most 2^21, and the rest inflates to p |
| `Codecs.BodyRefused` | `crates/rukkit-protocol/src/codec.rs:117-150` | and each other frame is refused for what is wrong: no VarInt, a negative length, one below the threshold, one above 2^21, or bytes that do not inflate to that size |
| `Codecs.FrameDecided` | `crates/rukkit-protocol/src/codec.rs:95-117` | any buffer is waited on while its frame is incomplete, refused and kept when its length is negative, above 2^21 or no VarInt, and otherwise gives up that frame, accepted or not |
| `Codecs.EncoderDecides` | `crates/rukkit-protocol/src/codec.rs:200-251` | which packets the encoder refuses and with what error, in every mode |
| `Codecs.EmptyPacketUnderZero` | `crates/rukkit-protocol/src/codec.rs:214-244` | an empty packet under threshold 0 comes back as the zlib bytes instead |
| `Codecs.BelowThreshold` | `crates/rukkit-protocol/src/codec.rs:214-220` | below the threshold nothing limits the frame, so exactly the packets with 1 + len at most MAX_FRAME_LEN come back |
| `Codecs.Compressed` | `crates/rukkit-protocol/src/codec.rs:221-244` | at or above it only the frame is limited, so exactly the packets of 1 to MAX_FRAME_LEN bytes come back |
| `Codecs.PartialFrame` | `crates/rukkit-protocol/src/codec.rs:95-113` | a frame whose last byte is missing is not decoded and is no error |
| `Codecs.PullStable` | `crates/rukkit-protocol/src/codec.rs:95-150` | more input changes no decode that did not ask for it |
| `Codecs.DrainSplits` | `crates/rukkit-protocol/src/codec.rs:84-150` | decoding a longer stream is decoding its front and going on from there, errors included |
| `Codecs.FollowIsFaithful` | `crates/rukkit-protocol/src/codec.rs:84-150` | under any interleaving of feeding and decoding, what came out and what is left is what the concatenated bytes hold |
| `Codecs.ChunkingIsInvisible` | `crates/rukkit-protocol/src/codec.rs:84-150` | results up to the first error depend only on the bytes fed, with the mode switched at the same packet index |
| `Codecs.WireDrains` | `crates/rukkit-protocol/src/codec.rs:84-251` | a whole stream decodes to just the packets encoded, with an empty buffer, exactly when each is of recoverable size |
| `Codecs.PrefixDrains` | `crates/rukkit-protocol/src/codec.rs:84-251` | of a stream cut anywhere, exactly the packets whose last byte has arrived come out |
| `Codecs.StreamRoundTrip` | `crates/rukkit-protocol/src/codec.rs:84-251` | packets the encoder accepted, under any schedule of thresholds and any cutting and timing, come out in order, none before its last byte, all at the end |
| `Codecs.IntendedPacketsArrive` | `crates/rukkit-protocol/src/codec.rs:84-251` | packets of 1 to MAX_FRAME_LEN bytes under thresholds up to that always arrive, whole and in order |
| `Codecs.OversizedFrames` | `crates/rukkit-protocol/src/codec.rs:200-251` | the declared length of an accepted frame is that of what follows, and passes MAX_FRAME_LEN exactly for a packet below the threshold with 1 + len past it |
| `SecureCodecs.SealedWireIsSealed` | `crates/rukkit-protocol/src/codec.rs:200-251` | frames enciphered one by one as they are encoded are the whole stream enciphered once |
| `SecureCodecs.EncodeAll` | `crates/rukkit-protocol/src/codec.rs:200-251` | any number of `encode` calls on one buffer append the stream, each byte enciphered once with one running state, up to the first packet refused |
| `SecureCodecs.SecureLink` | `crates/rukkit-protocol/src/codec.rs:68-89` | after `enable_encryption` the buffer is fed what the bytes since then decipher to, under any chunks and moments of decoding |
| `SecureCodecs.SecureStreamRoundTrip` | `crates/rukkit-protocol/src/codec.rs:63-251` | a stream enciphered from some packet on, with a feed boundary at that byte: whatever the chunks, the thresholds and the moments of decoding, all packets come out in order, none before its last byte |
| `SecureCodecs.PlainStreamRoundTrip` | `crates/rukkit-protocol/src/codec.rs:63-251` | the same until the switch |
| `SecureCodecs.SwitchTooLate` | `crates/rukkit-protocol/src/codec.rs:84-89` | a switch k bytes after the ciphertext begins feeds the decoder the right stream exactly when k is 0, unless the first keystream byte is zero |
| `SecureCodecs.SwitchTooEarly` | `crates/rukkit-protocol/src/codec.rs:84-89` | and so does one j bytes before it, exactly when j is 0 |
| `SecureCodecs.FedTooEarly` | `crates/rukkit-protocol/src/codec.rs:84-89` | an instance: a one-byte packet fed before the switch decodes as an empty one |
| `SecureCodecs.Serve` | `crates/rukkit-protocol/src/codec.rs:63-150` | the decoder object, fed, tried and switched, hands out exactly what the link does |
| `Codecs.Decoder.Feed` | `crates/rukkit-protocol/src/codec.rs:84-89` | appends the bytes, deciphered with the running state if encryption is on |
| `Codecs.Decoder.Decode` | `crates/rukkit-protocol/src/codec.rs:95-150` | takes one packet, asks for more, or fails, exactly as specified, with the buffer each case leaves |
| `Codecs.Encoder.Encode` | `crates/rukkit-protocol/src/codec.rs:200-251` | appends one frame, enciphering each of its bytes once; an error leaves output and cipher state as they were |
| `Codecs.Encoder.WriteFrame` | `crates/rukkit-protocol/src/codec.rs:200-242` | appends the frame of the mode in force, or fails and appends nothing |
| `ModifiedUtf8s.CharRoundTrip` | `crates/rukkit-protocol/src/nbt.rs:298-402` | every character, NUL and supplementary ones included, decodes from its encoding |
| `ModifiedUtf8s.CharForms` | `crates/rukkit-protocol/src/nbt.rs:298-339` | the bytes of every character: two for NUL, one, two or three by range, and a pair of three-byte surrogates above U+FFFF |
| `ModifiedUtf8s.Accepted` | `crates/rukkit-protocol/src/nbt.rs:357-402` | which bytes are accepted as a character, and as which |
| `ModifiedUtf8s.StringRefusals` | `crates/rukkit-protocol/src/nbt.rs:341-345` | a string is as long as its two-byte prefix says, and refused when that much has not come |
| `ModifiedUtf8s.DecodeEncode` | `crates/rukkit-protocol/src/nbt.rs:298-402` | every string decodes from its encoding |
| `ModifiedUtf8s.TruncatedIsLongest` | `crates/rukkit-protocol/src/nbt.rs:298-339` | what is written is the longest whole-character prefix that fits in 65535 bytes, the whole string exactly when it fits |
| `ModifiedUtf8s.StringRoundTrip` | `crates/rukkit-protocol/src/nbt.rs:298-345` | reading a written string gives that prefix and leaves exactly what follows |
| `ModifiedUtf8s.SurrogatesPair` | `crates/rukkit-protocol/src/nbt.rs:357-402` | a surrogate is accepted exactly as the first of a pair, and a pair is the code point it stands for |
| `ModifiedUtf8s.CodePointsAreValid` | `crates/rukkit-protocol/src/nbt.rs:357-402` | the decoder never assembles a value that is not a Unicode scalar value |
| `ModifiedUtf8s.DecodedLength` | `crates/rukkit-protocol/src/nbt.rs:357-402` | a decoded string re-encodes to at most its bytes plus one for each raw zero byte |
| `ModifiedUtf8s.WriteModifiedUtf8` | `crates/rukkit-protocol/src/nbt.rs:298-339` | the writer appends the length and the encoding of the longest prefix that fits |
| `ModifiedUtf8s.DecodeModifiedUtf8` | `crates/rukkit-protocol/src/nbt.rs:357-402` | the decoding loop computes the specified string or error |
| `Nbts.InsertGrows` | `crates/rukkit-protocol/src/nbt.rs:244-252` | a new key is appended; a known key is replaced in place |
| `Nbts.InsertThenGet` | `crates/rukkit-protocol/src/nbt.rs:244-257` | `get` answers with the value last inserted under a key, and other keys are not disturbed |
| `Nbts.InsertKeeps` | `crates/rukkit-protocol/src/nbt.rs:244-252` | inserting keeps keys unique and adds no node beyond those of the value |
| `Nbts.NewListLaw` | `crates/rukkit-protocol/src/nbt.rs:183-195` | a list can be built exactly when its elements share a type, and has that type, or 0 when it is empty |
| `Nbts.FirstByteIsType` | `crates/rukkit-protocol/src/nbt.rs:409-412` | a document begins with its type, 1 to 12 |
| `Nbts.KnownCompound` | `crates/rukkit-protocol/src/nbt.rs:421-464` | a compound byte by byte: entry type, key length, key, payload, end mark |
| `Nbts.PayloadLength` | `crates/rukkit-protocol/src/nbt.rs:421-464` | the bytes that scalars, strings and arrays take, and the end mark of a compound |
| `Nbts.NestLimits` | `crates/rukkit-protocol/src/nbt.rs:504-574` | lists 512 deep are read and lists 513 deep are not |
| `Nbts.ArrayLimits` | `crates/rukkit-protocol/src/nbt.rs:489-502` | arrays and lists of 2^24 elements are read and longer ones are not |
| `Nbts.ReadRefusals` | `crates/rukkit-protocol/src/nbt.rs:471-574` | unknown types, too much depth, end tags at the root and in lists that are not empty are refused, each with its error |
| `Nbts.LengthLaw` | `crates/rukkit-protocol/src/nbt.rs:489-502` | a length is a signed number of four bytes, refused when negative or above 2^24, with the error that says which |
| `Nbts.PayloadReads` | `crates/rukkit-protocol/src/nbt.rs:421-574` | the encoding of every lawful tree, at every depth and before any bytes: within the reader's limits it reads back with only over-long strings cut, outside them it is refused |
| `Nbts.ClippedIsIdentity` | `crates/rukkit-protocol/src/nbt.rs:298-339` | nothing is cut exactly when every string and key fits |
| `Nbts.NetworkRoundTrip` | `crates/rukkit-protocol/src/nbt.rs:409-477` | a tree survives the round trip, key order and empty-list type included, exactly when it is within the depth and array limits and its strings fit |
| `Nbts.ReadPayload` | `crates/rukkit-protocol/src/nbt.rs:504-574` | a successful read consumes at least one byte, and recursion ends at depth 512 |
| `Nbts.ReadLen` | `crates/rukkit-protocol/src/nbt.rs:489-502` | a length is four bytes and never above 2^24 |
| `Nbts.PayloadIsSound` | `crates/rukkit-protocol/src/nbt.rs:504-574` | from arbitrary bytes only lawful trees are read: right type, homogeneous lists, unique keys, depth at most 512, no more nodes than bytes consumed, the rest a suffix of the input |
| `Nbts.RereadRoundTrip` | `crates/rukkit-protocol/src/nbt.rs:409-574` | re-encoding and re-reading a tree read from any bytes returns it exactly when no string has grown past 65535 bytes |
| `Nbts.DocumentSurvives` | `crates/rukkit-protocol/src/nbt.rs:409-574` | a document whose strings and keys leave room for their raw zero bytes always survives being written and read again |
| `Nbts.NoZerosKeep` | `crates/rukkit-protocol/src/nbt.rs:341-345` | a string without raw zero bytes leaves that room |
| `NbtIos.PutNetwork` | `crates/rukkit-protocol/src/nbt.rs:409-412` | the writer appends exactly the network form |
| `NbtIos.PutPayload` | `crates/rukkit-protocol/src/nbt.rs:421-464` | the recursive writer appends exactly the payload |
| `NbtIos.PacketReader.TakeBytes` | `crates/rukkit-protocol/src/reader.rs:55-72` | returns the next n bytes and advances, or fails and stays |
| `NbtIos.PacketReader.GetString` | `crates/rukkit-protocol/src/nbt.rs:341-345` | reads one length-prefixed string from the cursor |
| `NbtIos.PacketReader.GetLen` | `crates/rukkit-protocol/src/nbt.rs:489-502` | reads one bounded length from the cursor |
| `NbtIos.PacketReader.GetPayload` | `crates/rukkit-protocol/src/nbt.rs:504-574` | the cursor-moving reader yields exactly what the specification reads from the bytes ahead, never moving past the end |
| `NbtIos.PacketReader.GetNetwork` | `crates/rukkit-protocol/src/nbt.rs:471-477` | the same for a whole document |
| `Texts.EntriesArePresent` | `crates/rukkit-protocol/src/text.rs:159-190` | the compound holds exactly the fields that are set, in their fixed order |
| `Texts.FieldsByName` | `crates/rukkit-protocol/src/text.rs:159-190` | under each key stands its own field: strings as they are, flags as a byte that is 1 or 0, children as a list of compounds; nothing stands there if the field is not set |
| `Texts.ChildrenInOrder` | `crates/rukkit-protocol/src/text.rs:182-188` | the list holds the form of each child at its place |
| `Texts.ExtraIsHomogeneous` | `crates/rukkit-protocol/src/text.rs:182-188` | the list of children can always be built, so no child is dropped |
| `Texts.ToNbtInjective` | `crates/rukkit-protocol/src/text.rs:159-190` | no two component trees have the same NBT form |
| `Texts.DepthOfLevels` | `crates/rukkit-protocol/src/text.rs:159-190` | a component nested k levels down sits at NBT depth 2k, its fields at 2k + 1 |
| `Texts.ComponentLimits` | `crates/rukkit-protocol/src/text.rs:159-190` | the form is within the reader's limits exactly when its deepest tag is at most 512 down and no component has more than 2^24 children |
| `Texts.ComponentWf` | `crates/rukkit-protocol/src/text.rs:159-190` | the form is a lawful tree: keys unique, list homogeneous |
| `Texts.ComponentRoundTrip` | `crates/rukkit-protocol/src/text.rs:159-190` | a component survives the binary round trip exactly when those limits hold and its strings fit |
| `Texts.LevelsThatSurvive` | `crates/rukkit-protocol/src/text.rs:159-190` | 255 levels below the root are always shallow enough and 257 never are |
| `Texts.BuildNbt` | `crates/rukkit-protocol/src/text.rs:159-190` | filling a compound field by field gives that form |
| `Players.AdmitLaws` | `crates/rukkit-server/src/player.rs:47-57` | admission succeeds exactly when there is room and the name is free, storing the entry under its uuid, and otherwise says Full if there is no room and NameTaken if there is; it keeps the cap and distinct names |
| `Players.RemovalUndoesAdmission` | `crates/rukkit-server/src/player.rs:47-61` | admission followed by removal restores the registry exactly when the uuid was not there before |
| `Players.SharedUuidEvicts` | `crates/rukkit-server/src/player.rs:47-57` | were two names to share a uuid, the second would evict the first: why identities must be injective |
| `Players.PlayerRegistry.TryInsert` | `crates/rukkit-server/src/player.rs:47-57` | one call admits or refuses as specified, and a refusal changes nothing |
| `Players.PlayerRegistry.AnyNamed` | `crates/rukkit-server/src/player.rs:52-54` | finds a name exactly when someone has it |
| `Players.PlayerRegistry.Remove` | `crates/rukkit-server/src/player.rs:59-61` | takes out that uuid only, and returns who was there |
| `Connections.ReadersAgree` | `crates/rukkit-server/src/connection.rs:137-402` | each packet reader accepts exactly the packets with the id and a decodable body of what it looks for: among those of configuration, id 7 is the choice of packs, id 3 the end, and the rest is passed over |
| `Connections.ReaderErrors` | `crates/rukkit-server/src/connection.rs:137-402` | a packet is refused for an unreadable id with that error, for another id by naming it, and for its body with the error of its codec; in configuration no id is refused |
| `Connections.HandshakeLaw` | `crates/rukkit-server/src/connection.rs:159-196` | status, login in protocol 776, or a refusal naming any other version; anything but an intention ends the connection |
| `Connections.StatusLaw` | `crates/rukkit-server/src/connection.rs:199-239` | a request leads to an answer with the players counted, a ping to one with its payload, and anything else ends the connection |
| `Connections.PollLaw` | `crates/rukkit-server/src/connection.rs:211-220` | the count is that of the registry at the moment of the request |
| `Connections.HelloLaw` | `crates/rukkit-server/src/connection.rs:241-275` | a name is refused in online mode, else it leads to the compression switch exactly when the threshold is not negative |
| `Connections.AcknowledgementLaw` | `crates/rukkit-server/src/connection.rs:290-298` | only the acknowledgement of login leads to admission |
| `Connections.ConfigurationLaw` | `crates/rukkit-server/src/connection.rs:336-401` | the choice of packs is refused, the acknowledgement of the end ends the connection well, settings, plugin messages, keep-alives and unknown ids change nothing, and a body that does not decode ends it with an error |
| `Connections.SendingLaw` | `crates/rukkit-server/src/connection.rs:183-370` | in every phase that sends: which packet goes out, and where the connection is when it is written |
| `Connections.FailedSendLaw` | `crates/rukkit-server/src/connection.rs:114-120` | a failed write leaves its part of the frame on the wire and ends the connection with its error, except that a version refusal stays one, and a player is first removed |
| `Connections.WaitingLaw` | `crates/rukkit-server/src/connection.rs:89-111` | bytes are kept; silence, an error and the end of the stream each end the connection, the last one well in the status exchange |
| `ConnectionRuns.Connection.EnableCompression` | `crates/rukkit-server/src/connection.rs:126-129` | switches both directions and keeps what is buffered |
| `ConnectionRuns.Connection.Send` | `crates/rukkit-server/src/connection.rs:114-120` | frames and writes one packet: exactly one step of the machine, which takes a write failure that is next in the script and nothing else |
| `ConnectionRuns.Connection.ReadPacket` | `crates/rukkit-server/src/connection.rs:89-111` | reads until a packet is complete, the stream ends, or time is up: the machine's steps on the items the script gives, to the same packet or exit |
| `ConnectionRuns.StatusPhase` | `crates/rukkit-server/src/connection.rs:199-239` | the status loop ends where the machine ends on the same script and company, counting the players it finds |
| `ConnectionRuns.Greet` | `crates/rukkit-server/src/connection.rs:241-288` | Hello, the refusal of online mode, the compression switch and LoginFinished are the machine's steps on the same script |
| `ConnectionRuns.ConfigurationPhase` | `crates/rukkit-server/src/connection.rs:326-402` | the configuration loop is the machine's steps on the same script, to the point where the player is still to be removed |
| `ConnectionRuns.LoginPhase` | `crates/rukkit-server/src/connection.rs:241-324` | the login flow ends where the machine ends on the same script and company, admission and removal made on the registry as found |
| `ConnectionRuns.RunConnection` | `crates/rukkit-server/src/connection.rs:159-196` | given what the socket does and what the others make of the registry, the program ends where the machine ends: same outcome, bytes written and registry left; what it received is what the part of the script it took delivers |
| `Stages.OneEnding` | `crates/rukkit-server/src/connection.rs:159-402` | the surroundings decide everything: the machine has one way to end |
| `Stages.LeadsArrives` | `crates/rukkit-server/src/connection.rs:89-100` | the bytes received are those delivered by the part of the script taken, none lost and none invented |
| `Stages.RunIsLawful` | `crates/rukkit-server/src/connection.rs:159-402` | whatever the script, and with the registry arbitrary within the cap at each visit, the connection is sound and its ending explained |
| `LoginFlows.StepKeepsSound` | `crates/rukkit-server/src/connection.rs:159-402` | every step, whatever happens to the registry meanwhile, keeps the connection's place in the script, its inbound stream and its outbound stream sound |
| `LoginFlows.ListenOn` | `crates/rukkit-server/src/connection.rs:114-120` | one more frame, whole or cut by a failed write, adds that packet or nothing to what a listening client has heard |
| `LoginFlows.RenderedId` | `crates/rukkit-protocol/src/packets/ids.rs:32-84` | every packet sent begins with its id, and SetCompression continues with the threshold |
| `LoginFlows.ScriptLaw` | `crates/rukkit-server/src/connection.rs:241-375` | what is said to a player in full, to one who is refused and up to LoginFinished, packet by packet, with the switch exactly when the threshold is not negative |
| `LoginFlows.NoticeKeepsUp` | `crates/rukkit-server/src/connection.rs:268-275` | a client that acts on the packet just sent ends up in the state and mode of the server |
| `LoginFlows.SendsOnSchedule` | `crates/rukkit-server/src/connection.rs:268-275` | at every send the mode in force is the scheduled one |
| `LoginFlows.ReadsOnSchedule` | `crates/rukkit-server/src/connection.rs:241-303` | at every read the decoder is in the mode of the client's stream |
| `LoginFlows.StoppingIsAllowed` | `crates/rukkit-server/src/connection.rs:159-402` | at every moment what has been sent is allowed by what has been received |
| `LoginFlows.StepHasCause` | `crates/rukkit-server/src/connection.rs:89-402` | a step that ends a connection has the cause its outcome names: silence or end of stream only while waiting with no packet at hand, a failed write only inside a frame, a protocol error only from the decoder, the reader of that phase or the encoder |
| `Lobbies.RegistryIsTheSeated` | `crates/rukkit-server/src/connection.rs:300-323` | in every run of any number of connections the registry is within max(0, max_players), its names are distinct, and its entries are one for one the connections between admission and removal |
| `Lobbies.OnlyOwnEntry` | `crates/rukkit-server/src/connection.rs:300-323` | a joining connection adds its own entry, exactly when there is room and the name is free, and is otherwise refused for lack of room first; a leaving one removes its own entry; no other step, refusal included, changes any |
| `Lobbies.RunIsSound` | `crates/rukkit-server/src/connection.rs:159-402` | every connection of every run is sound |
| `Lobbies.ClientHearsWhatWasSent` | `crates/rukkit-server/src/connection.rs:114-129` | in every run a client that switches on reading SetCompression decodes exactly the packets sent, in order |
| `Lobbies.SwitchIsOnTime` | `crates/rukkit-server/src/connection.rs:268-275` | in every run SetCompression is sent first and plain if at all, with the configured threshold, and every later packet is framed compressed with it |
| `Lobbies.LoginFinishedIsEarned` | `crates/rukkit-server/src/connection.rs:165-288` | in every run LoginFinished goes only to a client that spoke protocol 776 and gave a valid Hello in offline mode, carries that name and its identity, and is preceded by SetCompression exactly when the threshold is not negative |
| `Lobbies.ServerHearsTheClient` | `crates/rukkit-server/src/connection.rs:89-100` | in every run, however the client's bytes arrive, the packets handled are the first ones of its stream |
| `Lobbies.EndingsAreExplained` | `crates/rukkit-server/src/connection.rs:159-402` | in every run the way a connection ends says what happened: well only after a pong, after a hang-up with every request answered, or at the end of configuration; a refusal only with its notice sent last; an unexpected packet named by the id read; silence only with no packet at hand |
| `Lobbies.EveryEndingHasACause` | `crates/rukkit-server/src/connection.rs:159-402` | in every run a connection that has ended was ended by a move of its own with the cause its outcome names |
| `Lobbies.RunLeavesNoTrace` | `crates/rukkit-server/src/connection.rs:241-324` | a connection that runs to its end while the others wait leaves the registry as it found it, by whatever path |
| `Lobbies.EveryConnectionPlays` | `crates/rukkit-server/src/connection.rs:159-402` | in every run of any number of connections, each whose inputs come from a script does what the machine does alone with that script and the registry as found |
| `Lobbies.ProgramEndsAlike` | `crates/rukkit-server/src/connection.rs:159-402` | so the program, with that script and that company, ends where the connection ends |
| `Lobbies.EveryRunIsScripted` | `crates/rukkit-server/src/connection.rs:159-402` | every run of any number of connections is one in which each takes all its inputs from a script, so none is left out |

## Left out

- Chunks.Chunk: biomes are created, shrunk and written but never set; `Heightmaps::to_nbt` and `ChunkPos` are absent.
- Palettes.PalettedContainer.ForEach: a visitor is modelled as the sequence of values it is called with, so visitors with effects are not captured.
- Generators.FlatGenerator.Generate: `surface_y - dirt_depth` wraps, as in a release build; a debug build panics there. `min_y + height` is unbounded.
- Codecs.Decoder: the retry loops around zlib, reserved capacity and the reuse of buffers.
- Varints.ReadVarLoop: the loop adds shifted groups where the code ors them into a wrapping integer; the dropped top bits are modelled, the bit pattern in between is not.
- Nbts.Wf: lists and arrays of 2^32 elements or more, whose `i32` length would wrap, are excluded: the program builds none.
- Nbts.ReadNetwork: the named file form (`write_named`, `read_named`) and the `as_*` accessors.
- Texts.Component: JSON, `plain_text` and the builder methods.
- Texts.ComponentRoundTrip: components with 2^32 or more children of one parent, for the reason given for Nbts.Wf.
- Connections.Formats: field lists of packets, their enum conversions, and UTF-8 validation of strings.
- Connections.StatusResponse: the player sample and the cached JSON; only the count is kept.
- ConnectionRuns.RunConnection: cancelled tasks and panics in the middle of a phase are not captured, nor is a script without end; what a script leaves open when it runs out is silence.
- ConnectionRuns.Connection: the socket's shutdown, the read buffer's size, and how long a silence is.
- Players.PlayerRegistry: the lock is the atomicity of one step; `get`, `snapshot`, `sample_names` and `contains_name` only read.
- Encryption in the login flow is not negotiated by the code and not modelled there.
- The accept loop, tick loop, metrics, configuration files, favicon, status cache and the play packets.
