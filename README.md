# libsmacker decode engine in Dafny

A model of the decoding core of libsmacker, a C library for RAD Game Tools
Smacker (`.smk`) video, with proofs about it. Every module is checked by the
Dafny verifier.

- **Bit reader** (`bitstream.dfy`). The bit reader of `smk_bitstream.c`,
  which hands out one bit or one byte at a time, least-significant bit first.
  It is a class whose `byte_num`/`bit_num` fields advance in place. Each
  method is proved against pure readers `Read1`/`Read8` over the buffer's
  bit sequence.
- **Shared tree format** (`codetree.dfy`). The pre-order Huffman tree format
  every tree implementation reads, the walk that decodes a symbol, and the
  pre-order flattening into slots that the array trees use.
- **8-bit array tree** (`huff8.dfy`). `smk_huff8.c`: the array tree with
  back-patched branch slots. The build and lookup are methods on a class
  holding the slot array; they are proved against the parse and the walk.
- **16-bit array tree** (`huff16.dfy`). `smk_huff16.c`: the 16-bit tree
  built from two 8-bit trees and three cache seeds, with escape slots. It
  has a recently-used cache that its lookup and reset update in place.
- **Pointer-linked trees** (`hufftree.dfy`). `smk_hufftree.c`, as a datatype
  with recursive build and lookup functions. `HuffBig` is the big tree whose
  cache the lookup and reset update in place.
- **smacker.c, split by record.** Each of these files covers one part of
  `smacker.c`:
  - `container.dfy`: the header and frame tables.
  - `palette.dfy`: the palette record.
  - `audio.dfy` and `dpcm.dfy`: the audio record, with the DPCM arithmetic.
  - `video.dfy`: the 4x4 block video record.
  - `smacker.dfy`: the handle, with its render order and frame cursor.

  The render loops are methods that fill buffers in place. Each is proved
  equal to a specification function, and the properties are proved about
  those functions.

`smacker.c` calls these reader and tree functions:

- `smk_bs_1`, `smk_bs_8` and `smk_bits_left`;
- `smk_build_tree` and `smk_tree_lookup`;
- `smk_build_bigtree`, `smk_bigtree_lookup` and `smk_bigtree_reset`.

Their declarations name the types of `smk_hufftree.c` (`struct smk_huff_t`,
`struct smk_huff_big_t`), so the model binds them to that file's functions:

- `BitStream.Read1` and `BitStream.Read8`;
- `HuffTree.BuildTree` and `CodeTree.Walk`;
- `HuffTree.BuildBig` and `HuffTree.BigLookup`.

A failed read's -1 reaches `smacker.c` converted to the caller's unsigned
type: 0xFF for a byte, 0xFFFF for a 16-bit value. The model does the same.

## Model

| member | source | states |
|---|---|---|
| BitStream.BitOrder | smk_bitstream.c:57-70 | bit 8b+k of the reader's bit sequence is bit k of byte b: least-significant bit first, byte after byte |
| BitStream.Read1 | smk_bitstream.c:74-91 | a bit is read exactly when one remains; it is the bit at the position, which advances by one; on failure the position is unchanged |
| BitStream.Read8 | smk_bitstream.c:95-118 | a byte is read exactly when eight bits remain; the first bit read is bit 0 of the result and the position advances by eight; on failure the position is unchanged |
| BitStream.Read8Aligned | smk_bitstream.c:95-118 | eight bits read from a byte boundary are exactly the next byte of the buffer |
| BitStream.ShiftIn | smk_bitstream.c:109-113 | the read_8 register after shifting in s, one `ret >>= 1; ret \|= bit << 7` per bit, is the value of s scaled up by 2^(8-\|s\|) |
| BitStream.ShiftInStep | smk_bitstream.c:111-112 | one shift step adds the new bit as the next higher bit of the value read so far |
| BitStream.ShiftInSnoc | smk_bitstream.c:111-112 | one more bit moves the register down one place and enters at bit 7 |
| BitStream.BitReader.constructor | smk_bitstream.c:32-53 | a fresh reader has byte_num = -1 and bit_num = 7, position 0: the first bit it hands out is bit 0 of byte 0 |
| BitStream.BitReader.BitsLeft | smk_bitstream.c:80 | the guard `bit_num < 7 \|\| byte_num + 1 < size` holds exactly when a bit remains |
| BitStream.BitReader.Next | smk_bitstream.c:57-70 | advances the position by exactly one and returns the bit at the old position, moving to the next byte after bit 7 |
| BitStream.BitReader.ReadBit | smk_bitstream.c:74-91 | returns 0 or 1 as Read1 says and advances by one, or returns -1 without moving when no bit remains |
| BitStream.BitReader.ReadByte | smk_bitstream.c:95-118 | returns the byte Read8 gives and advances by eight, or returns -1 without moving unless eight bits remain |
| BitStream.BitReader.ShiftBit | smk_bitstream.c:109-113 | one turn of the read_8 loop advances one bit and leaves the register equal to ShiftIn of the bits read so far |
| BitStream.ReadByteGuard | smk_bitstream.c:103 | the guard `byte_num + 1 < size` holds exactly when eight bits remain |
| CodeTree.Closing | smk_huff8.c:131-144 | the closing bit succeeds exactly on a 0 bit; a 1 bit is consumed and fails, and an exhausted stream fails |
| CodeTree.Walk | smk_hufftree.c:165-199 | a lookup ends within the stream; one that runs out of bits fails at the stream's end |
| CodeTree.WalkBelow | smk_hufftree.c:176-198 | a successful lookup returns a value below the bound of the tree's leaves |
| CodeTree.WalkFollowsPath | smk_hufftree.c:176-198 | feeding a leaf's path bits to the lookup returns that leaf's value and consumes exactly the path |
| CodeTree.WalkTakesPath | smk_hufftree.c:176-198 | every successful lookup followed the path to the leaf whose value it returns |
| CodeTree.ParseByteTree | smk_hufftree.c:38-102 | a parsed tree consumes at least one bit, stays within the stream and has byte leaves |
| CodeTree.ParseBranchBit | smk_hufftree.c:59-80 | a 1 bit parses as a branch whose left subtree starts after the bit and whose right subtree follows the left, failing when either fails |
| CodeTree.ParseBranchOk | smk_hufftree.c:59-80 | a 1 bit followed by two parsed subtrees is the branch over them |
| CodeTree.ParseLeafBit | smk_hufftree.c:81-99 | a 0 bit parses as a leaf holding the next eight bits, failing when they are missing |
| CodeTree.EncodeByteTree | smk_hufftree.c:38-102 | the encoding of a tree in the format takes at least nine bits |
| CodeTree.ParseEncodedByteTree | smk_hufftree.c:38-102 | round trip: parsing an encoded tree anywhere in a stream gives the tree back and stops right after it |
| CodeTree.PlacedFrame | smk_huff8.c:34-87 | a flattened subtree depends only on its own slots |
| CodeTree.PatchedSlots | smk_huff8.c:64 | after the back-patch of slot i, later writes that keep the prefix leave slot i patched and the others as they were |
| CodeTree.PlacedBranch | smk_huff8.c:52-70 | a branch is in place once its slot holds the right child's index, its left subtree follows it and its right subtree follows that |
| Huff8.ParseSmallTree | smk_huff8.c:91-147 | a presence bit, the tree (or the absent leaf 0), and a closing bit: a success consumes at least two bits and has byte leaves |
| Huff8.BuildSmallTree | smk_huff8.c:24-31 | the build succeeds exactly when the tree parses and fits in the 511 slots of the structure |
| Huff8.AbsentTree | smk_huff8.c:118-129 | a leading 0 bit and the closing 0 bit give the absent tree, which decodes 0 without reading a bit |
| Huff8.Comb | smk_huff8.c:26-30 | a chain of n branches has 2n+1 nodes and byte leaves |
| Huff8.OversizedTreeParses | smk_huff8.c:26-30 | a well-formed stream describes a tree of 513 nodes, more than the 511 slots |
| Huff8.SlotTest | smk_huff8.c:160-171 | a slot holding a placed subtree has bit 15 set exactly when the subtree is a branch, and its low 15 bits index the right child |
| Huff8.SmallTree.constructor | smk_huff8.c:109-116 | a fresh structure has 511 slots and tree_size 0 |
| Huff8.SmallTree.BuildRec | smk_huff8.c:34-87 | on success, the parsed subtree is flattened in pre-order from the old tree_size and the reader is right after it; on failure, the parse failed or the tree does not fit; slots below the old tree_size are untouched |
| Huff8.SmallTree.BuildBranch | smk_huff8.c:45-70 | the branch case: after its 1 bit, the left subtree, the back-patch and the right subtree are in place, with the same failure cases |
| Huff8.SmallTree.BuildRight | smk_huff8.c:62-70 | patching the branch slot with the right child's index and then building the right subtree completes the branch |
| Huff8.SmallTree.Patch | smk_huff8.c:64 | the back-patch writes one slot and nothing else |
| Huff8.SmallTree.BuildLeaf | smk_huff8.c:71-84 | the leaf case: the next byte is stored at tree_size, which advances by one |
| Huff8.SmallTree.Build | smk_huff8.c:91-147 | returns a structure holding the tree BuildSmallTree parses, with the reader right after the closing bit, or null exactly when that parse fails |
| Huff8.SmallTree.Lookup | smk_huff8.c:151-176 | returns the value of the leaf the walk of the held tree reaches and moves the reader past the path, or -1 with the reader at the stream's end when the bits run out |
| Huff16.Resolve | smk_huff16.c:267-273 | the value an escape or literal slot stands for is a 16-bit value |
| Huff16.LeafSlot | smk_huff16.c:106-119 | a leaf value is stored as an escape exactly when it is cached, to the first slot holding it; under that cache the slot stands for the value again |
| Huff16.Promote | smk_huff16.c:275-282 | after a lookup the cache still holds three 16-bit values and the returned value is in front |
| Huff16.PromoteKeepsRecent | smk_huff16.c:275-282 | the cache is unchanged exactly when the value was in front; otherwise the old slots 0 and 1 move to 1 and 2 and slot 2 is dropped |
| Huff16.ReadSeeds | smk_huff16.c:179-202 | n seeds take exactly 16 n bits; each is a 16-bit value |
| Huff16.SeedsFailLater | smk_huff16.c:179-202 | a seed that cannot be read fails every longer run of seeds |
| Huff16.SeedStep | smk_huff16.c:182-201 | one more seed is its low byte joined with the high byte read after it |
| Huff16.SeedFails | smk_huff16.c:182-200 | a missing low or high byte of a seed fails the three seeds |
| Huff16.ParseBigBody | smk_huff16.c:48-124 | a parsed body consumes at least one bit and holds only literal and escape slots; it can only fail at the end of the stream; leaves are joined low \| high << 8, the reverse of line 104 (see Left out) |
| Huff16.BodyBranchBit | smk_huff16.c:59-84 | a 1 bit parses as a branch whose left subtree follows the bit and whose right subtree follows the left |
| Huff16.BodyLeafBit | smk_huff16.c:85-122 | a 0 bit parses as a leaf joined from the low tree's byte and the high tree's byte, stored as its leaf slot; the model joins them low \| high << 8, where line 104 stores (low << 8) \| high (see Left out and Findings) |
| Huff16.Capacity | smk_huff16.c:205 | the slot count (alloc_size - 12) / 4, in unsigned 32-bit arithmetic, is below 2^30 |
| Huff16.BuildBigTree | smk_huff16.c:127-237 | a built tree consumes at least the presence and closing bits, holds only leaf slots, a 16-bit cache, and fits its slots when it is a branch |
| Huff16.ParsePresent | smk_huff16.c:161-208 | the low and high trees, then the seeds and the body; a success fits the allocated slots |
| Huff16.ParseSlots | smk_huff16.c:179-208 | three seeds, then a body that must fit the allocated slots |
| Huff16.AbsentBigTree | smk_huff16.c:214-219 | a leading 0 bit gives the single leaf 0 with an all-zero cache, which decodes 0 without reading and leaves the cache as it is |
| Huff16.JoinBytes | smk_huff16.c:190-201 | a joined seed holds its first byte in the low half and its second byte in the high half |
| Huff16.JoinAsWrittenSwaps | smk_huff16.c:104 | the leaf join of the source puts the low tree's byte in the high half, the reverse of the seeds |
| Huff16.SeedMissedAsWritten | smk_huff16.c:104-119 | with seeds (1,0), (2,0), (3,0), the source's join stores a leaf with the bytes of seed 0 as the literal 256 instead of the escape to slot 0 |
| Huff16.BodyOverrunsAllocation | smk_huff16.c:205-208 | a three-bit body describes three slots, while an alloc_size of 16 allocates one |
| Huff16.SlotTest | smk_huff16.c:252-269 | bit 31 of a placed slot tells a branch, whose low 30 bits index the right child; bit 30 tells an escape |
| Huff16.BigTree.constructor | smk_huff16.c:150-157 | a fresh structure has the given slot count, a three-slot cache and tree_size 0 |
| Huff16.BigTree.BuildRec | smk_huff16.c:48-124 | on success, the parsed body is flattened in pre-order from the old tree_size; on failure, the parse failed or the body does not fit; lower slots are untouched |
| Huff16.BigTree.BuildBranch | smk_huff16.c:59-84 | the branch case, with the back-patch between the two subtrees |
| Huff16.BigTree.BuildRight | smk_huff16.c:76-84 | patching the branch slot and building the right subtree completes the branch |
| Huff16.BigTree.Patch | smk_huff16.c:78 | the back-patch writes one slot and nothing else |
| Huff16.BigTree.BuildLeaf | smk_huff16.c:85-122 | the leaf case: the low tree's byte and the high tree's byte, joined low \| high << 8 (line 104 joins them the other way, see Left out), stored at tree_size as the leaf slot ParseBigBody gives, which advances tree_size by one |
| Huff16.BigTree.ReadLeaf | smk_huff16.c:86-101 | the low-tree and high-tree lookups give -1 exactly when ParseBigBody fails, and otherwise the 16-bit value low \| high << 8 whose slot ParseBigBody gives, where line 104 computes (low << 8) \| high (see Left out) |
| Huff16.BigTree.StoreLeaf | smk_huff16.c:104-120 | the value is stored at tree_size as the escape to the cache slot holding it, or as itself; tree_size advances by one and earlier slots stay |
| Huff16.BigTree.Build | smk_huff16.c:127-237 | returns a structure holding the tree and cache BuildBigTree parses with (alloc_size - 12) / 4 slots, or null exactly when that parse fails |
| Huff16.BigTree.Absent | smk_huff16.c:214-219 | the absent tree: one slot holding 0 and an all-zero cache |
| Huff16.BigTree.BuildPresent | smk_huff16.c:161-213 | the present tree: the two 8-bit trees, the seeds and the slots, as ParsePresent says |
| Huff16.BigTree.BuildSlots | smk_huff16.c:179-208 | the seeds and the slots, as ParseSlots says |
| Huff16.BigTree.ReadCache | smk_huff16.c:179-202 | the seed loop fills the cache with the three seeds ReadSeeds reads, or fails exactly when they cannot be read |
| Huff16.BigTree.Lookup | smk_huff16.c:242-285 | returns the value the reached slot stands for and promotes it in the cache, or -1 with the cache untouched and the reader at the stream's end when the bits run out |
| Huff16.BigTree.FindSlot | smk_huff16.c:252-265 | the walk returns the index of the leaf slot the bits lead to, with the reader past its path, or -1 with the reader at the stream's end |
| Huff16.BigTree.Reset | smk_huff16.c:288-294 | every cache slot becomes 0 and the tree is unchanged |
| HuffTree.BuildTree | smk_hufftree.c:108-161 | a leading 1 (a 0 fails), the body and a closing 0: a built tree takes at least 11 bits and has byte leaves |
| HuffTree.ByteTreeLength | smk_hufftree.c:81-99 | a tree body takes at least the nine bits of a leaf |
| HuffTree.EncodeTree | smk_hufftree.c:108-161 | a written tree is its body framed by a leading 1 and a closing 0 |
| HuffTree.TreeRoundTrip | smk_hufftree.c:108-161 | building a written tree gives the tree back and stops right after it |
| HuffTree.BuildTreeOk | smk_hufftree.c:120-160 | a leading 1, a body that parses and a closing 0 build that body |
| HuffTree.LeafValue | smk_hufftree.c:446-457 | the value a leaf stands for, from the cache slot its escape code names or its own value, is a 16-bit value |
| HuffTree.MakeLeaf | smk_hufftree.c:279-301 | the escape code is NO_ESCAPE exactly when the value is not cached, otherwise the first slot holding it; under that cache the leaf stands for the value |
| HuffTree.ParseBigRec | smk_hufftree.c:202-305 | a built body consumes at least one bit and has well-formed leaves; it can only fail at the end of the stream |
| HuffTree.SeedRoomExact | smk_hufftree.c:352-359 | the guard `byte_num + 6 < size` holds exactly when the 48 bits of the seeds remain, which is when the seeds can be read |
| HuffTree.SeedsLength | smk_hufftree.c:361-383 | n seeds can be read exactly when 16 n bits remain |
| HuffTree.SeedGuardTooStrict | smk_hufftree.c:352-359 | an 11-byte stream whose big tree builds is turned away by the guard `byte_num + 7 < size` |
| HuffTree.BuildBig | smk_hufftree.c:308-421 | a built big tree starts with a 1 bit, has well-formed leaves and a 16-bit cache; the seeds are read under the guard `byte_num + 6 < size`, where line 353 demands `byte_num + 7 < size` (see Left out) |
| HuffTree.BigBody | smk_hufftree.c:352-414 | after the two 8-bit trees, the seeds, the body and the closing bit: a success stays within the stream, with well-formed leaves and a 16-bit cache |
| HuffTree.MoveToFront | smk_hufftree.c:459-473 | the value ends in front; an uncached value pushes the old slots 0 and 1 back and drops slot 2 |
| HuffTree.MoveToFrontPermutes | smk_hufftree.c:459-473 | a lookup of a cached value leaves the cache the same multiset, only reordered |
| HuffTree.MoveToFrontVsPromote | smk_hufftree.c:459-473 | this shuffle and the one of smk_huff16_lookup agree on slots 0 and 1, and differ exactly when the value sits in slot 1 between two other values |
| HuffTree.WalkBigLeaf | smk_hufftree.c:477-494 | a walk of a tree of well-formed leaves ends at a well-formed leaf |
| HuffTree.BigLookup | smk_hufftree.c:423-501 | a lookup returns a 16-bit value, which ends in front of the cache; one that runs out of bits fails at the stream's end |
| HuffTree.LookupBuiltLeaf | smk_hufftree.c:279-301 | a leaf built under a cache decodes to the value it was built from under that same cache |
| HuffTree.HuffBig.constructor | smk_hufftree.c:350-383 | the structure holds the built tree and the seeded cache |
| HuffTree.HuffBig.Lookup | smk_hufftree.c:498-501 | returns BigLookup's value with the cache updated in place and the reader past the path, or -1 with the cache untouched and the reader at the stream's end |
| HuffTree.HuffBig.LookupRec | smk_hufftree.c:423-495 | at a leaf the value it stands for, moved to the front; at a branch one bit picks the subtree; -1, with the cache untouched and the reader at the stream's end, when no bit is left |
| HuffTree.HuffBig.Hit | smk_hufftree.c:445-476 | the leaf case: the leaf's value under the old cache, which is shuffled by MoveToFront |
| HuffTree.HuffBig.Reset | smk_hufftree.c:504-509 | every cache slot becomes 0 and the tree is unchanged |
| Container.GrabUi | smacker.c:163-169 | a 32-bit word whose lowest byte is the first and whose highest byte is the fourth |
| Container.GrabPut | smacker.c:163-169 | reading back a stored word gives the word |
| Container.PutGrab | smacker.c:163-169 | storing a word read from four bytes gives the four bytes |
| Container.ChunkSize | smacker.c:767-773 | the chunk size is the size word with its two low bits cleared |
| Container.SizeWordFields | smacker.c:765-774 | a size word built from a chunk size and a keyframe flag gives both back |
| Container.DecodeAudio | smacker.c:739-752 | the descriptor is rejected exactly when bit 26 or 27 is set; otherwise the rate is the low 24 bits |
| Container.DecodeEncodedAudio | smacker.c:739-752 | decoding an encoded descriptor gives the track's compressed, present, depth, channel and rate fields back |
| Container.InfoAudioTracks | smacker.c:934-943 | bit t of the result is set exactly when track t is present, for the seven tracks |
| Container.TrackBitsAre | smacker.c:936-942 | bit t of the assembled presence bits is track t's presence |
| Container.Bytes | smacker.c:787-792 | a read of n bytes succeeds exactly when they are all there, and gives n bytes, the k-th being the file's byte at + k |
| Container.ReadChunks | smacker.c:806-820 | one chunk per frame, each as long as its table entry |
| Container.ChunksRead | smacker.c:806-820 | the chunks are read exactly when every non-empty one ends within the file, laid out one after another; chunk i then holds the file's bytes from at + (the sum of the sizes before it) on |
| Container.Contents | smacker.c:786-820 | after the tables: the four trees are built from the tree_size bytes of the tree block, and the chunks are read from the byte after it; it succeeds exactly when the tree block is read and the chunks are |
| Container.BigTrees | smacker.c:794-804 | n big trees built one after another, each either missing or a well-formed tree with a 16-bit cache |
| Container.ReadTables | smacker.c:761-781 | the tables are read exactly when they are all there; they are the per-frame keyframe flags, chunk sizes and type bytes the file stores |
| Container.OpenFile | smacker.c:639-859 | an opened file is signed "SMK", well formed, and holds the header and tables its bytes store; a file that is unsigned, too short, or has a track descriptor with bit 26 or 27 set does not open |
| Container.ReadHeader | smacker.c:681-752 | the header fields the file stores, read exactly when every audio descriptor is accepted |
| Container.Audios | smacker.c:738-752 | the seven descriptors decoded in order, present exactly when every one is accepted |
| Container.OpenTables | smacker.c:754-820 | an opened file keeps the header, holds the frame tables the file stores at offset 0x68, and its trees and chunks are the Contents read from the byte after the frame-type table |
| Palette.Scale | smacker.c:178-187 | a scaled component shifted down gives the 6-bit component back, and its low two bits repeat its top two |
| Palette.PalmapScale | smacker.c:178-187 | the 64-entry colour table is the scale, entry by entry |
| Palette.Copy | smacker.c:209-244 | a copy of k entries leaves the palette 768 bytes long |
| Palette.CopyBytes | smacker.c:213-221 | byte by byte, a copy that fits replaces entries i to i+k-1 with old entries j to j+k-1 (or zeros when there is no old palette) and leaves every other byte; a copy that does not fit writes nothing |
| Palette.DecodeCmd | smacker.c:207-255 | a command consumes at least one byte of the record; a copy covers 1 to 128 entries; a literal's three bytes are scaled; there is none exactly when it runs past the record or a component is past the table |
| Palette.Apply | smacker.c:209-255 | a command keeps the palette 768 bytes long |
| Palette.PalStep | smacker.c:207-255 | one pass of the loop moves forward in the record and in the new palette |
| Palette.PalLoop | smacker.c:207-256 | the command loop yields a whole palette |
| Palette.RenderPaletteSpec | smacker.c:172-270 | the record always ends 4 times its first byte after it starts; disabled, it is skipped and the palette kept; enabled, a whole new palette replaces the old |
| Palette.PaletteProvenance | smacker.c:207-256 | every byte of a rebuilt palette is zero, a scaled component, or the same component of an entry of the previous palette |
| Palette.StepSourced | smacker.c:207-255 | one command keeps every byte sourced |
| Palette.LiteralSourced | smacker.c:251-253 | a literal entry writes scaled components |
| Palette.CopySourced | smacker.c:213-242 | a copy writes old components in their own place, or zeros |
| Palette.RenderPalette | smacker.c:172-270 | the palette decoder, filling a buffer in place, gives exactly RenderPaletteSpec |
| Palette.RebuildPalette | smacker.c:202-259 | the command loop on a zeroed buffer gives exactly PalLoop |
| Palette.Command | smacker.c:209-255 | one loop pass on the buffer succeeds exactly when PalStep does, and leaves the state PalStep gives |
| Palette.SetEntry | smacker.c:251-253 | the three component writes of a literal |
| Palette.CopyInto | smacker.c:213-221 | the memcpy or memset of a copy command gives exactly Copy |
| Audio.Flag | smacker.c:304-313 | smk_bs_1 as the decoder sees it: 0xFF exactly when no bit is left, and at most one bit consumed |
| Audio.Byte | smacker.c:329 | smk_bs_8 as the decoder sees it: at most eight bits consumed |
| Audio.Bytes | smacker.c:344-351 | n bytes read one after another: byte k is the eight bits 8k on from the start, least significant first, or 0xFF once fewer than eight bits are left; when all fit the reader ends 8n bits on |
| Audio.Trees | smacker.c:321-355 | n trees built one after another within the stream, each missing or with byte leaves |
| Audio.Symbol | smacker.c:364 | smk_tree_lookup as the decoder sees it, within the stream |
| Audio.Symbols | smacker.c:358-391 | a successful decode gives exactly m difference bytes and stays within the stream |
| Audio.SymbolsFailLater | smacker.c:358-391 | once a needed tree is missing, every longer decode fails too |
| Audio.Unpack | smacker.c:321-391 | a successful decode fills exactly the buffer size |
| Audio.Integrated | smacker.c:358-391 | the rebuilt buffer has the buffer size and starts with the first frame |
| Audio.Decompress | smacker.c:302-392 | a stream that decodes samples fills exactly the buffer size |
| Audio.RenderAudioSpec | smacker.c:273-423 | a record always ends its length word after it starts; disabled it is skipped; raw it is copied; compressed, buffer_size is always the unpacked size, and the buffer is either kept (flag mismatch) or a new one of that size |
| Audio.RenderAudio | smacker.c:273-423 | the audio decoder gives exactly RenderAudioSpec |
| Audio.Compressed | smacker.c:291-405 | a compressed record sets buffer_size to the unpacked size from its second word; the buffer is kept on a flag mismatch and is otherwise a new one of that size |
| Audio.RenderCompressed | smacker.c:291-405 | the compressed branch of the audio decoder gives exactly Compressed |
| Audio.DecompressStream | smacker.c:302-392 | the flags, the trees, the first frame and the difference loop give exactly Decompress |
| Audio.UnpackStream | smacker.c:321-391 | the trees and the first frame, read in the decoder's order, then the difference loop, give exactly Unpack |
| Audio.Differentiate | smacker.c:357-391 | the difference loop on a fresh buffer gives exactly Integrated |
| Audio.DecodeFrames | smacker.c:358-391 | frame after frame until the buffer is full, the buffer is the integration of the decoded differences; it fails exactly when a needed tree is missing |
| Audio.IntegratedSome | smacker.c:358-391 | a stream whose differences all decode integrates them |
| Audio.NewBuffer | smacker.c:298 | a fresh buffer of the unpacked size, starting with the first frame |
| Audio.DecodeFrame | smacker.c:360-390 | one more frame: the buffer grows by a frame and is still the integration of the decoded differences, or the decode fails exactly as Symbols does |
| Audio.DecodeSample | smacker.c:364-386 | one sample of w bytes: the buffer is still the integration of the decoded differences, or the decode fails exactly as Symbols does |
| Audio.Store8 | smacker.c:364-378 | writing an 8-bit sample extends the integrated buffer by one difference byte and leaves the bytes after it |
| Audio.Store16 | smacker.c:368-386 | writing a 16-bit sample in little-endian layout (the source's `short` store on a little-endian host) extends the integrated buffer by two difference bytes and leaves the bytes after it |
| Audio.SymbolsNext | smacker.c:364 | one more difference byte is decoded with the tree it needs |
| Audio.SymbolsMissing | smacker.c:358-391 | a needed tree that is missing stops the decode |
| Dpcm.Carry | smacker.c:368-369 | the carry out of an 8-bit sum is 0 or 1 |
| Dpcm.Integrate | smacker.c:358-391 | the samples a DPCM stream describes: the first frame, then one byte per difference byte |
| Dpcm.IntegrateSnoc | smacker.c:358-391 | one more difference byte appends one byte: the difference plus the byte one frame earlier, with the carry of the low byte when it is a high byte |
| Dpcm.IntegrateInit | smacker.c:329-355 | the first frame is kept as it is |
| Dpcm.Differences | smacker.c:358-391 | the differences of a buffer: one byte per byte after the first frame |
| Dpcm.IntegrateDifferences | smacker.c:358-391 | integrating the differences of a buffer rebuilds the buffer from its first frame |
| Dpcm.DifferencesIntegrate | smacker.c:358-391 | the differences of an integrated stream are the stream's differences |
| Dpcm.UndoAdd | smacker.c:364-386 | subtracting the previous byte and the borrow undoes the addition with the carry |
| Dpcm.UndoSub | smacker.c:364-386 | adding the previous byte and the carry undoes the subtraction with the borrow |
| Dpcm.IntegratePrefix | smacker.c:358-391 | integrating a prefix of the differences gives the same prefix of the samples |
| Dpcm.AddBytes | smacker.c:368-369 | 16-bit addition done a byte at a time with the carry is 16-bit addition |
| Dpcm.SampleSum8 | smacker.c:364-378 | in 8-bit samples, each sample after the first frame is the one a frame earlier plus its difference, mod 2^8 |
| Dpcm.SampleBytes16 | smacker.c:368-369 | in 16-bit samples, the low byte is added without carry and the high byte with the carry out of the low byte |
| Dpcm.SampleSum16 | smacker.c:368-386 | in 16-bit samples, each sample after the first frame is the one a frame earlier plus its difference, mod 2^16 |
| Video.SplitType | smacker.c:472-475 | the type is bits 0-1, the run-length index bits 2-7 and the payload the high byte; together they give the word back |
| Video.SplitJoin | smacker.c:472-475 | every combination of fields is the split of exactly one word |
| Video.RunLength | smacker.c:438-447 | every run length is between 1 and 2048 |
| Video.SizeTableRuns | smacker.c:438-447 | the table is one more than the index up to 58, then the powers of two from 128 to 2048 |
| Video.Test1 | smacker.c:480-483 | smk_bs_1 as an `if` condition consumes at most one bit |
| Video.BlockType | smacker.c:478-487 | the block type is below 6 and at most two bits are consumed |
| Video.BlockTypes | smacker.c:478-487 | a version 4 FULL word becomes DOUBLE when the next bit is set, else HALF when the one after is set, else stays FULL; every other word keeps its type and reads nothing |
| Video.Reset | smacker.c:459-462 | the four caches become all zero |
| Video.Lookup | smacker.c:472 | a lookup on tree i changes only tree i's cache and stays within the stream |
| Video.Lookups | smacker.c:508-516 | n lookups give n words |
| Video.RowInFrame | smacker.c:501 | every row of a block that fits lies inside the frame |
| Video.SetRowAt | smacker.c:519-528 | a four-byte write replaces exactly those four pixels |
| Video.PaintedPixel | smacker.c:498-558 | painting a block writes exactly the 16 pixels of its 4x4 block, each from its place in the cell, and leaves every other pixel |
| Video.PaintedAt | smacker.c:498-558 | pixel (row+r, col+c) of the painted frame is pixel 4r+c of the cell |
| Video.MonoPixels | smacker.c:494-505 | MONO: bit k of the mask sets pixel (row+k/4, col+k%4) to the MCLR high byte, a clear bit to the low byte |
| Video.VoidPixels | smacker.c:518-523 | VOID: each pixel of the block is the same pixel of the previous frame |
| Video.CellOfAt | smacker.c:519-522 | pixel 4r+c of a block's cell is the frame's pixel r rows and c columns into the block |
| Video.SolidPixels | smacker.c:524-529 | SOLID: every pixel of the block is the payload byte |
| Video.FullPixels | smacker.c:507-517 | FULL: row r takes columns 2 and 3 from the first of its two words and columns 0 and 1 from the second, low byte on the left |
| Video.DoublePixels | smacker.c:530-543 | DOUBLE: rows 2k and 2k+1 take word k, its low byte in columns 0 and 1 and its high byte in columns 2 and 3 |
| Video.HalfPixels | smacker.c:544-558 | HALF: rows 2k and 2k+1 are the same row, built from words 2k and 2k+1 as a FULL row is |
| Video.AdvanceRaster | smacker.c:560 | the cursor moves to the next block in raster order |
| Video.Cursor | smacker.c:464-562 | a cursor on a block of the frame has the whole 4x4 block inside the frame and a raster index below the block count; past the end the index is the block count |
| Video.LoopTest | smacker.c:464 | the loop test row*w+col < w*h holds exactly while the cursor row is inside the frame |
| Video.Cell | smacker.c:491-559 | a block's cell has 16 pixels and fails exactly for VOID without a previous frame |
| Video.Block | smacker.c:489-561 | one block moves the cursor to the next block index, failing exactly for VOID without a previous frame |
| Video.Run | smacker.c:489-561 | a run that completes leaves the cursor on the block grid, the caches well formed, and the bit position not moved back |
| Video.RunIndex | smacker.c:489-561 | a run of n blocks covers exactly n blocks, or stops at the end of the frame |
| Video.RunDone | smacker.c:489 | a run with no blocks left, or with the cursor past the frame, changes nothing |
| Video.Frame | smacker.c:464-562 | a drawn frame has w*h pixels |
| Video.Start | smacker.c:451-462 | decoding starts with reset caches at the top-left block of a w*h buffer |
| Video.RenderVideoSpec | smacker.c:425-578 | disabled, the frame is kept; enabled, a missing tree gives no result; any result is a frame of w*h pixels or none |
| Video.Shapes | smacker.c:459-462 | the four trees are usable exactly when all of them exist, with reset caches |
| Video.OutOfBitsKeeps | smacker.c:466-471 | a record whose bits run out before the first block-type word keeps the previous frame |
| Video.RenderVideo | smacker.c:425-578 | the video decoder, drawing into a fresh buffer, gives exactly RenderVideoSpec |
| Video.DecodeFrame | smacker.c:464-562 | the outer loop gives exactly Frame from the start state |
| Video.DecodeRun | smacker.c:489-561 | the inner loop gives exactly Run on the buffer |
| Video.RunBlock | smacker.c:489-561 | one turn of the inner loop leaves a run of n blocks failing exactly when Run fails, and otherwise with the remaining n-1 blocks of that Run still to go |
| Video.DecodeBlock | smacker.c:491-560 | one block gives exactly Block on the buffer |
| Video.Paint | smacker.c:498-558 | a cell written row by row gives exactly PaintCell |
| Video.PutRow | smacker.c:519 | four pixels written from at give exactly SetRow |
| Smacker.Off | smacker.c:673 | a freshly opened handle has every switch off |
| Smacker.PaletteStep | smacker.c:612-616 | the palette is kept when the frame has no palette record or palette decoding is off; the video record starts where the audio records that follow end |
| Smacker.Tracks | smacker.c:618-625 | a track whose bit is clear, or that is disabled, keeps what it had; the records end where their length words say |
| Smacker.RenderSpec | smacker.c:582-635 | palette, then tracks 0 to 6, then video: the palette, each track and the frame are kept when their record is absent or their switch is off |
| Smacker.Rendered | smacker.c:582-635 | the output after rendering stays well formed |
| Smacker.Silent | smacker.c:582-635 | with every switch off, rendering a frame whose records fit changes nothing |
| Smacker.SilentTracks | smacker.c:618-625 | disabled tracks skip their records and keep what they had |
| Smacker.RenderTracks | smacker.c:618-625 | the audio loop gives exactly Tracks |
| Smacker.SeekTarget | smacker.c:983-984 | the greatest index up to f that is 0 or a keyframe |
| Smacker.Smk.constructor | smacker.c:666-676 | a fresh handle is at frame 0 with every switch off and nothing decoded |
| Smacker.Smk.EnablePalette | smacker.c:919 | sets the palette switch to v != 0 and nothing else |
| Smacker.Smk.EnableVideo | smacker.c:920 | sets the video switch to v != 0 and nothing else |
| Smacker.Smk.EnableAudio | smacker.c:921 | sets track t's switch to v != 0 and nothing else |
| Smacker.Smk.Render | smacker.c:582-635 | the output becomes Rendered for the current frame; cursor and switches are kept |
| Smacker.Smk.First | smacker.c:955-962 | frame 0, rendered; LAST exactly when it is the only frame, MORE otherwise |
| Smacker.Smk.Next | smacker.c:965-975 | the next frame, rendered, when there is one, LAST when it is the final frame and MORE otherwise; DONE without moving at the end |
| Smacker.Smk.SeekKeyframe | smacker.c:978-991 | lands on the greatest index up to f that is 0 or a keyframe, renders it and returns it |

## Left out

- I/O: fopen/fread/fseek/ftell/feof and the disk mode of `smk_open_file` and `smk_render` are left out. The file is given as an in-memory byte sequence (memory mode). The trailing-byte probe is not modelled.
- The frame rate (a float) and `smk_info_fps` are left out.
- setjmp/longjmp, malloc/free, `smk_close` and the tree free functions are left out. A failed build or open yields nothing (`None`, `Fail`, or null).
- Logging to stderr/stdout is left out.
- The plain field accessors are left out. These are `smk_info_video_w`, `smk_info_video_h`, `smk_info_f`, `smk_info_cur_frame`, `smk_info_audio_channels`, `smk_info_audio_bitdepth`, `smk_info_audio_rate` and the `smk_get_*` functions. Each reads one field of the model directly.
- Uninitialised memory is modelled as zeros: a fresh palette, the audio buffer of a record whose presence bit is 0, and the unwritten bytes of a fresh video buffer.
- Huff8.SmallTree.BuildRec: a slot index at or past the 511 slots fails the build. The source writes past its storage instead (see Findings).
- Huff16.BigTree.BuildRec: a slot index at or past the (alloc_size - 12) / 4 slots fails the build. The source writes past its allocation instead (see Findings).
- Huff16.BigTree.Build: it checks the result of the recursive build, which the source ignores. A failed body fails only at the end of the stream (ParseBigBody), so the source's closing-bit read fails there too.
- Huff16.ParseBigBody, Huff16.BodyLeafBit, Huff16.BigTree.BuildLeaf, Huff16.BigTree.ReadLeaf: the leaf is joined low | high << 8. The source stores (low << 8) | high at `smk_huff16.c:104` (see Findings). The members built on them inherit the corrected join: Huff16.BuildBigTree, Huff16.ParsePresent, Huff16.ParseSlots, Huff16.BigTree.Build, Huff16.BigTree.BuildPresent and Huff16.BigTree.BuildSlots. Huff16.JoinAsWrittenSwaps and Huff16.SeedMissedAsWritten state the join as written.
- HuffTree.BuildBig: the seeds are read when `byte_num + 6 < size`, which holds exactly when their 48 bits remain. The source returns NULL unless `byte_num + 7 < size` (`smk_hufftree.c:353`, see Findings). So when `byte_num + 7 == size`, the model can build a tree where the source returns NULL. Container.BigTrees, Container.Contents, Container.OpenFile and Container.OpenTables inherit the corrected guard, and so does the video rendering over those trees. HuffTree.SeedGuardTooStrict states the guard as written.
- Huff16.BigTree.Lookup: its cache update follows the source (Promote), not the special case of `smk_hufftree.c`. HuffTree.MoveToFrontVsPromote states the difference.
- Huff16.BigTree.Reset: "reset, then a fixed bit sequence, gives the same outputs" is not a separate lemma. It follows from Reset's all-zero cache and Lookup's contract, which depends only on the tree, the cache and the bits.
- Audio.Unpack: a buffer size that is not a whole number of sample frames, or is smaller than one frame, gives no result. The source's loop writes past the buffer there.
- Audio.Store16, Audio.Unpack: 16-bit samples are laid out little-endian, as on a little-endian host. The source writes them through a `short *` (`smacker.c:333`, `350-351`, `368`, `382`, `385`), so the buffer `smk_get_audio` returns is in host byte order.
- Audio.UnpackStream: when two `smk_bs_8` calls appear in one C expression, their order is unspecified. The model takes the first read as the high byte.
- Audio.DecodeSample: the 16-bit samples at `smacker.c:368`, `382` and `385` put two `smk_tree_lookup` calls in one C expression, so their order is unspecified too. The model reads the low byte's tree (`aud_tree[0]`, or `aud_tree[2]`) first and the high byte's tree second. Symbols and Unpack fix the same order.
- Audio.RenderAudioSpec: a record that does not fit in the chunk, or is shorter than its own size fields, gives no result. An enabled record makes the source read past the record there. A disabled record whose length runs past the chunk also gives no result, although the source only moves `p` past the chunk (`p += size`) without reading it. A needed audio tree that failed to build also gives no result: the source passes the NULL tree to `smk_tree_lookup`, which dereferences it.
- Palette.RenderPaletteSpec: some records give no result, because the source reads past the record or past the 64-entry colour table there. These are an enabled record with no byte after its length byte, a command that runs past the record, and a component of 64 or more. A disabled palette record whose length runs past the chunk also gives no result, although the source only moves `p` past the chunk (`smacker.c:268`) without reading it; through Smacker.Rendered the frame's outputs then stay as they were.
- Video.RenderVideoSpec: some cases give no result. These are a missing tree, a VOID block on a frame without a previous one (the source reads a null buffer), a frame of 2^32 pixels or more (the source's 32-bit `w * h` wraps), and sides that are not multiples of 4.
- Smacker.Rendered: when a record gives no result, the handle's output stays as it was.
- Smacker.Smk.SeekKeyframe requires f below the frame count. The source reads past the frame table otherwise.
- Smacker.Smk.First requires at least one frame. The source reads past the frame table otherwise.
- `smk_bitstream.h` and `smk_hufftree.h` declare an older interface (`smk_bs_1`, `smk_bs_8`, `smk_bits_left`, `smk_build_tree`). Those functions are not part of this model's sources. The model binds the names to the functions of `smk_bitstream.c` and `smk_hufftree.c`, as described above.

## Findings

| source | as written | input that shows it | evidently intended | confidence | as-written member | corrected member |
|---|---|---|---|---|---|---|
| smk_huff8.c:26-30 | the tree is stored in 511 slots and `tree_size` is never checked against them | a presence bit 1, then a chain of 256 branches each with a leaf on its left, then the closing 0: 513 nodes | a tree that needs more than 511 slots fails the build | not executed | Huff8.OversizedTreeParses | Huff8.BuildSmallTree |
| smk_huff16.c:205-208 | the slot count (alloc_size - 12) / 4 never bounds the tree body, and the build's result is ignored | alloc_size 16 and the body bits 1, 0, 0 (after both 8-bit trees absent and three zero seeds): three slots in an allocation of one | a body larger than the allocation fails the build | not executed | Huff16.BodyOverrunsAllocation | Huff16.ParseSlots |
| smk_huff16.c:104 | a leaf is `(low-tree value << 8) \| high-tree value`, while the seeds are low byte first | seeds (1,0), (2,0), (3,0) and a leaf whose low tree gives 1 and high tree gives 0: stored as the literal 256, not as the escape to slot 0 | a leaf is `low \| (high << 8)`, as the seeds and `smk_hufftree.c:282` join it | not executed | Huff16.SeedMissedAsWritten | Huff16.JoinBytes |
| smk_hufftree.c:353 | the seeds are read only when `byte_num + 7 < size`, one byte more than the six they need | an 11-byte stream: a leading 1, a two-leaf low tree, a one-leaf high tree, three zero seeds, a one-leaf body and the closing 0 | `byte_num + 6 < size`, which holds exactly when the 48 seed bits remain | not executed | HuffTree.SeedGuardTooStrict | HuffTree.SeedRoomExact |
