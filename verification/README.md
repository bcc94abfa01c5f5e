# hash-frx in Dafny

hash-frx computes each hash several ways: in one call, incrementally, in batches,
out of a capacity buffer at a runtime length, from a resumed midstate, on 32-bit
halves, on rolled grids. Every way is meant to be byte-identical to the standard.
This project models those schedules and proves each clever form equal to the
simple one, over every input, every split and every run.

In the schedule modules the compression function or permutation is a parameter, a
total function nothing is assumed about. The primitives' own inner forms are opened
in the last group of modules.

| module | what it models |
|---|---|
| `Words`, `Stream`, `Bits` | bytes, words, packings, ceilings; a stream cut into blocks, the gap-skipping read, the held remainder; what each word operation does to a bit |
| `Blake3Tree` | the BLAKE3 tree as the paper's recursive split, and pairing level by level |
| `Blake3Stack` | the chunk counter, the subtree stack and its merges |
| `Blake3Modes` | the batched one-shot tree |
| `Blake3Streaming` | the incremental hasher, as a class over an array stack |
| `Pad` | Merkle-Damgard strengthening, HAIFA, the sponges' pad |
| `Md`, `MdStream`, `MdRuntime` | the Merkle-Damgard chain, the resumable stream, the runtime-length digest |
| `Pbkdf2` | HMAC and PBKDF2, generic and from midstates |
| `Fips202`, `Shake` | FIPS 202's sponge byte by byte; the byte sponge and incremental SHAKE |
| `Duplex` | the add-absorb duplex sponge and its conventions |
| `Sp800185` | SP 800-185 encodings, cSHAKE, TupleHash and KMAC framing |
| `Word64` | 64-bit words as half pairs |
| `Sha256`, `Sha512`, `Sm3` | shift-register windows against the standards' schedules |
| `KeccakF` | Keccak-f[1600] on 5x5 grids of half pairs |
| `BlakeMix`, `Blake32`, `Blake2b` | rolled 4x4 grids against sequential mixing |
| `Poseidon` | the optimized-sparse schedule against the naive one |
| `PoseidonFactors` | the derivation of the optimized constants from a naive instance |
| `Primitives` | SHA-256, Keccak-f[1600] and BLAKE3's compression under the schedules |

What a standard defines is written from the standard: the BLAKE3 paper's tree, FIPS
180-4's hash, FIPS 202's sponge, SP 800-185's reading of its own encodings, the naive
Poseidon lanes do not use the functions the source's schedules are built from, beyond
the packings and word operations that `Words`, `Stream` and `Bits` state on bytes and
bits.

Loops and in-place writes of the source are methods, each proved against a
specification function; the laws are lemmas about those functions. A `ValueError`
or `OverflowError` is a `None`. Lanes, blocks and tables are sequences; the one
object that is updated in place, the BLAKE3 hasher, is a class with its stack in an
array and the absorbed bytes as ghost state.

Where the code and its own comments disagree, the model follows the code:

- `hash_frx/blake3/streaming.py:105-108` says a 2^64-chunk input needs 54 stack
  entries. It is 2^64 bytes, 2^54 chunks: `Blake3Streaming.StackFits`.
- `hash_frx/blake3/streaming.py:255-257` says the completed count alone does not keep
  the merge loop off an empty stack. While the count has not wrapped it does:
  `Blake3Stack.GuardNeverDecides`.
- `hash_frx/blake3/streaming.py:338-400` adds the held and the new lengths in uint32,
  so a single absorb that passes 2^32 bytes loses data. `Blake3Streaming.AbsorbExact`
  gives the exact condition.
- `hash_frx/extension/md.py:199-265` counts bytes in an int32. `MdStream.StreamPadsExactly`
  shows 2^32 bytes to be exactly where the bit length stops being told, and
  `Md.FieldValueExact` where the block count does.

## Model

| member | source | states |
|---|---|---|
| `Words.PacksTell` | hash_frx/word.py:87-139 | each packed word is the value of its four bytes, in either byte order |
| `Words.PackBeUnpackBe` | hash_frx/word.py:123-156 | reading a serialized midstate back gives the midstate, for every word sequence |
| `Words.UnpacksTell` | hash_frx/word.py:109-156 | the four bytes of an unpacked word are its base-256 digits, in either byte order |
| `Stream.Layout` | hash_frx/keccak/streaming.py:126-164 | one absorb's gather lays the live blocks first and leaves exactly the remainder to hold, whatever the slots past the stream contain |
| `Stream.BlocksTell` | hash_frx/sha256/sha256.py:293-301 | word j of block i is the value of its own four bytes of the data, big-endian for SHA-2 and SM3, little-endian for the rest |
| `Bits.Word32Bits` | hash_frx/word64.py:81-88 | each bit of xor, and, or and not on 32-bit words is that of the operands' bits |
| `Bits.Word64Bits` | hash_frx/word64.py:81-88 | the same on 64-bit words |
| `Bits.Rotate32Bits` | hash_frx/word.py:48-65 | a rotation moves every bit n places, round the end, either way |
| `Bits.Rotate64Bits` | hash_frx/word64.py:48-67 | the same on 64-bit words |
| `Bits.ShiftBits` | hash_frx/sha512/sha512.py:285-292 | a shift right moves every bit n places down |
| `Bits.XorBytes` | hash_frx/keccak/sponge.py:96-119 | the bytes of a xor of words are the xors of their bytes |
| `Blake3Tree.LevelKeepsTree` | hash_frx/extension/tree.py:141-178 | pairing neighbours and carrying an odd node up leaves the recursively split tree's value unchanged, root included |
| `Blake3Tree.RunPlanIsTree` | hash_frx/blake3/modes.py:618-628 | reducing level by level to two nodes gives the operands of the recursive tree's root, for every n >= 2 |
| `Blake3Tree.PlanRounds` | hash_frx/extension/tree.py:141-178 | the reduction takes ceil(log2 n) rounds, the root's included |
| `Blake3Tree.Levels` | hash_frx/extension/tree.py:141-178 | the level loop terminates, rejects fewer than two nodes, and yields the plan of (pairs, odd) steps in ceil(log2 n) - 1 levels |
| `Blake3Tree.TreeOperands` | hash_frx/blake3/modes.py:398-406 | a root's block is the left subtree's chaining value then the right's, split at the largest power of two below the count, under the key, a zero counter and the PARENT flag |
| `Blake3Tree.ChunkOperands` | hash_frx/blake3/modes.py:247-277 | a chunk's pending node is its last block zero-filled, its number as the counter, its length, and the start and end flags of its place |
| `Blake3Tree.ChainOperands` | hash_frx/blake3/modes.py:214-244 | every block before is compressed whole, in order, chained from the key, with the start flag on the first |
| `Blake3Stack.BitIsBit` | hash_frx/blake3/streaming.py:219-223 | the two-word bit test reads bit i of the 64-bit count, i < 64 |
| `Blake3Stack.StackSizesMatch` | hash_frx/blake3/streaming.py:241-247 | the live stack is the chunk row cut into consecutive perfect subtrees that account for every chunk |
| `Blake3Stack.StackSizesAreBinary` | hash_frx/blake3/streaming.py:241-247 | those subtree sizes are distinct powers of two in decreasing order summing to the count: its binary expansion |
| `Blake3Stack.StackReadings` | hash_frx/blake3/streaming.py:241-287 | reading the stack greedily from the largest subtree and bit by bit from the smallest agree, with popcount(c) entries |
| `Blake3Stack.PopCountNext` | hash_frx/blake3/streaming.py:241-287 | popcount grows by one less the merges of the next count's trailing zeros |
| `Blake3Stack.GuardNeverDecides` | hash_frx/blake3/streaming.py:252-257 | wherever the bit test alone would continue, the stack still has an entry: the emptiness conjunct never decides |
| `Blake3Stack.MergeAtLevel` | hash_frx/blake3/streaming.py:252-287 | from any level the merge loop runs exactly trailing-zeros times and leaves the stack of the extended row |
| `Blake3Stack.PushChunk` | hash_frx/blake3/streaming.py:241-287 | pushing chunk c onto the stack of c chunks gives the stack of c + 1, in bounds, in exactly trailing-zeros(c + 1) merges |
| `Blake3Stack.FoldIsTree` | hash_frx/blake3/streaming.py:425-450 | folding the stack top down under the pending node is the root of the recursive tree over all chunks |
| `Blake3Modes.SharedChain` | hash_frx/blake3/modes.py:516-586 | a chunk that rides a shared chain for any number of its blocks and finishes alone has the spec's chunk output |
| `Blake3Modes.SharedRows` | hash_frx/blake3/modes.py:516-586 | full chunks and a short last chunk sharing calls each come out with their own chaining value, for every tail length 1..1024 |
| `Blake3Modes.ChunkChainingValues` | hash_frx/blake3/modes.py:470-586 | every batch, chunk count and tail length gives each message's chunk chaining values in order; more than 2^32 chunks is the error |
| `Blake3Modes.BatchLevel` | hash_frx/blake3/modes.py:618-628 | one batched reduction over the row-major layout is each row's own level |
| `Blake3Modes.TreeOutput` | hash_frx/blake3/modes.py:589-628 | every row's root is the recursive tree's root, the one-chunk message included; over two or more chunks its operands are the two subtrees' values, in order |
| `Blake3Modes.RootBytes` | hash_frx/blake3/modes.py:426-450 | the output is the root re-run at counters 0, 1, ... truncated to length; lengths outside 1..2^38 are the error |
| `Blake3Modes.UnmarkedHash` | hash_frx/blake3/modes.py:740-755 | the batched one-shot hash is the specification's hash of each row, in every mode |
| `Blake3Streaming.FoldDenotes` | hash_frx/blake3/streaming.py:290-308 | after k blocks the stack, counter, chaining value and block count are exactly what the first k blocks determine |
| `Blake3Streaming.AbsorbSplits` | hash_frx/blake3/streaming.py:338-400 | from every state, reached or not, two absorbs are one absorb of both on every field, while held and new bytes total at most 2^32 |
| `Blake3Streaming.AbsorbAppends` | hash_frx/blake3/streaming.py:338-400 | absorbing data into the state of a message gives the state of message and data, on every field, dead stack entries included |
| `Blake3Streaming.AbsorbExact` | hash_frx/blake3/streaming.py:360-400 | that holds if and only if the held bytes and the data total at most 2^32 |
| `Blake3Streaming.WrapLoses` | hash_frx/blake3/streaming.py:360-400 | with 64 bytes held, an absorb of 2^32 - 63 bytes does not give the state of the whole |
| `Blake3Streaming.AnySplit` | hash_frx/blake3/streaming.py:338-400 | any run of absorbs from the fresh state leaves the state of the concatenation |
| `Blake3Streaming.StackFits` | hash_frx/blake3/streaming.py:105-108 | for every message of up to 2^64 bytes the live stack is popcount of the completed chunks, at most 54, and holds their perfect subtrees |
| `Blake3Streaming.LastIsChunk` | hash_frx/blake3/streaming.py:402-424 | the lazily held last block is the last chunk's output, full or short |
| `Blake3Streaming.FinalIsRoot` | hash_frx/blake3/streaming.py:402-450 | the folded stack is the specification's root of whatever was absorbed |
| `Blake3Streaming.Hasher.constructor` | hash_frx/blake3/streaming.py:453-463 | a fresh hasher is the state of the empty message |
| `Blake3Streaming.Hasher.PushChunkCv` | hash_frx/blake3/streaming.py:241-287 | the merge loop on the array and the one write at the new top are the specified push |
| `Blake3Streaming.Hasher.AbsorbBlock` | hash_frx/blake3/streaming.py:290-308 | compressing a block in place is the specified step, finishing a chunk at the sixteenth |
| `Blake3Streaming.Hasher.AbsorbData` | hash_frx/blake3/streaming.py:338-400 | the masked block loop and the new held block are the specified absorb |
| `Blake3Streaming.Hasher.Absorb` | hash_frx/blake3/streaming.py:338-400 | the hasher stays valid for the absorbed bytes and data whenever their total fits, the empty absorb included |
| `Blake3Streaming.Hasher.Finalize` | hash_frx/blake3/streaming.py:402-450 | reading any length gives the specification's hash of the absorbed bytes and changes nothing |
| `Blake3Streaming.HashParts` | hash_frx/blake3/streaming.py:311-450 | a fresh hasher, any absorbs and one read give the specification's hash of the concatenation |
| `Pad.FieldTells` | hash_frx/extension/pad.py:129-152 | the trailer field, read back in the rule's byte order, is the count it holds |
| `Pad.Tail` | hash_frx/extension/pad.py:129-152 | the in-place writes give 0x80, zeros and the eight-byte field in the rule's byte order, or the bare zero fill; a field past 2^64 is the error |
| `Pad.PaddedInjective` | hash_frx/extension/pad.py:129-152 | under any trailer rule the padded bytes determine the message |
| `Pad.HaifaPaddingCollides` | hash_frx/extension/pad.py:129-152 | the zero fill alone loses a trailing zero byte |
| `Pad.HaifaDetermines` | hash_frx/extension/pad.py:155-178 | the zero-filled bytes with the counter sequence determine the message |
| `Pad.HaifaCountsBytes` | hash_frx/extension/pad.py:155-178 | the counter is the bytes behind the block, never padding, and final on the last block only |
| `Pad.SpongeTailInPlace` | hash_frx/extension/pad.py:246-258 | the in-place pad is the head and bit 7, on one byte when they meet |
| `Pad.SpongePadInjective` | hash_frx/extension/pad.py:182-258 | the sponge pad is injective if and only if its head is nonzero or its rate is one byte |
| `Md.MaskedChain` | hash_frx/extension/md.py:34-82 | the loop folds every block, or exactly the first `live` of them |
| `Md.TrailerFieldIs` | hash_frx/extension/md.py:199-265 | the runtime field is the rule's own field, in its byte order and at the end of its reservation, for both trailers |
| `Md.FieldValueExact` | hash_frx/extension/md.py:237-246 | on an int32 length the value is the static one if and only if it is a bit length or the block count's sum does not overflow |
| `Md.RegionPads` | hash_frx/extension/md.py:268-314 | at the least active size it is the content and its padding, then zeros |
| `MdStream.Absorb` | hash_frx/extension/md.py:411-517 | from every state, absorb moves the midstate over each newly complete block, holds the zeroed remainder and wraps the count |
| `MdStream.AdvanceAppends` | hash_frx/extension/md.py:411-517 | two absorbs are one absorb of both, on every field, from every state |
| `MdStream.AnySplit` | hash_frx/sha256/sha256.py:546-565 | any run of absorbs from the fresh state leaves the state of the concatenation |
| `MdStream.Finalize` | hash_frx/extension/md.py:519-602 | the one-or-two-block layout folds the open content and its runtime padding; extras wider than block - reserve are the error |
| `MdStream.FinishedIsOneFold` | hash_frx/extension/md.py:519-602 | finishing a stream with a tail is folding the whole padded message once |
| `MdStream.StreamIsDigest` | hash_frx/sha256/sha256.py:546-602 | any absorbs and a finalize give the one-shot digest, for every pending length and every total the count can tell |
| `MdStream.StreamPadsExactly` | hash_frx/sha256/sha256.py:594-599 | the stream's padding is the standard's if and only if the total is below 2^32 bytes |
| `MdRuntime.RegionIsPadded` | hash_frx/extension/md.py:317-361 | for every buffer and any bytes past the length, the region is the padded message then zeros |
| `MdRuntime.BytesDigest` | hash_frx/sha256/sha256.py:401-455 | the masked chain over a capacity buffer is the digest of its live prefix; a zero-width buffer is the error |
| `MdRuntime.CapacityAdmits` | hash_frx/byte_hash.py:233-268 | the width always holds the message and is never zero: a device message keeps its own, a host message takes one block or the power of two that less than doubles it |
| `MdRuntime.AtCapacity` | hash_frx/byte_hash.py:271-313 | the in-place widening is the message then zeros; a width below the length is the error |
| `MdRuntime.DigestMessage` | hash_frx/sha256/sha256.py:458-481 | by either marker, for host and device messages, the result is the standard's digest |
| `Pbkdf2.ResumedIsDigest` | hash_frx/adapter/pbkdf2.py:186-199 | resuming after one pad block with the tail for block and payload is the digest of both, for every payload |
| `Pbkdf2.HmacIs` | hash_frx/adapter/hmac.py:82-119 | the MAC is the hash over the pads xored byte by byte into the key, hashed first when longer than a block |
| `Pbkdf2.ShortKeyFills` | hash_frx/adapter/hmac.py:82-119 | a key of at most a block and the same key zero-filled authenticate alike |
| `Pbkdf2.MidstateStepIsHmac` | hash_frx/adapter/pbkdf2.py:181-202 | two resumed sides are HMAC of the payload under the processed key |
| `Pbkdf2.Chain` | hash_frx/adapter/pbkdf2.py:204-221 | the accumulator loop, by either body, is U_1 xor ... xor U_c |
| `Pbkdf2.Derive` | hash_frx/adapter/pbkdf2.py:118-222 | for every password, salt, count and length the key is RFC 8018 section 5.2's; the profile is taken only at the hash's own block size; bad counts and lengths are the error |
| `Shake.OutputShift` | hash_frx/keccak/streaming.py:225-260 | reading from the state q permutations on is reading q blocks further along |
| `Shake.XorIntoRateBytes` | hash_frx/keccak/sponge.py:96-119 | absorbing a block xors its bytes into the rate's and leaves the capacity |
| `Shake.BlockMixes` | hash_frx/keccak/sponge.py:96-119 | one absorbed block is FIPS 202's S xor (P, 0^c), on bytes |
| `Shake.OutputIsSponge` | hash_frx/keccak/sponge.py:123-161 | the padded message absorbed and read off is FIPS 202's sponge |
| `Shake.Hash` | hash_frx/keccak/sponge.py:242-272 | the one-shot schedule gives the first output_size bytes of FIPS 202's sponge over the padded message, byte by byte; rejected parameters are the error |
| `Shake.AbsorbBytes` | hash_frx/keccak/streaming.py:114-164 | from every state, absorb takes each complete block and holds the zeroed remainder |
| `Shake.AdvanceAppends` | hash_frx/keccak/streaming.py:114-164 | two absorbs are one absorb of both, on every field, from every state |
| `Shake.EverySplit` | hash_frx/keccak/streaming.py:114-164 | any run of absorbs from the fresh sponge is one absorb of the concatenation |
| `Shake.PaddedBlockIs` | hash_frx/keccak/streaming.py:166-182 | the runtime pad is the pending bytes and the static sponge pad, at every pending length |
| `Shake.PaddedStateIs` | hash_frx/keccak/streaming.py:166-193 | finalizing whatever was absorbed is the one-shot sponge's state after the padded message |
| `Shake.TakeBlocks` | hash_frx/keccak/streaming.py:310-333 | n blocks are the next n rate blocks of output and leave the state n permutations on |
| `Shake.TakeBytes` | hash_frx/keccak/streaming.py:225-260 | n bytes are the next n bytes from the carried offset, and the selected state and offset point past them |
| `Shake.ServeReadsOn` | hash_frx/keccak/streaming.py:205-350 | after every request the carried state and offset denote the next unread byte |
| `Shake.SqueezeRun` | hash_frx/keccak/streaming.py:225-350 | from any byte on, any run of block squeezes, widen and byte squeezes concatenates to one stretch of the output of the length asked for; a request out of turn or without a positive count is the error |
| `Shake.HashParts` | hash_frx/keccak/streaming.py:98-350 | any absorb split, then any run of squeezes, is FIPS 202's sponge over the whole message at the total length |
| `Duplex.AbsorbIntoRate` | hash_frx/duplex_sponge.py:246-263 | the spilling block loop is absorbing element by element with a deferred permute |
| `Duplex.SqueezeFromRate` | hash_frx/duplex_sponge.py:280-312 | the spilling read loop is reading lane by lane, except on the one skipped request |
| `Duplex.Absorb` | hash_frx/duplex_sponge.py:229-244 | the direction switch resets to lane 0, permutes by the convention's rule, and an empty absorb touches nothing |
| `Duplex.Squeeze` | hash_frx/duplex_sponge.py:265-278 | absorbed lanes are permuted before they are read, a drained block at once; a negative count is the error |
| `Duplex.SqueezeTurns` | hash_frx/duplex_sponge.py:265-278 | a squeeze from an absorbing or a drained sponge is the squeeze of its permuted state from lane 0, whatever is asked for |
| `Duplex.SqueezeReads` | hash_frx/duplex_sponge.py:280-312 | inside a block it returns the next rate lanes; past it, the rest of the block and then the permuted state's |
| `Duplex.AbsorbTurns` | hash_frx/duplex_sponge.py:229-244 | an absorb turning round restarts at lane 0 and permutes under one switch rule only; a full block is permuted under both |
| `Duplex.AbsorbMerges` | hash_frx/duplex_sponge.py:246-263 | inside a block it adds to the next rate lanes, nothing else, and defers the permute; past it, it permutes and goes on |
| `Duplex.FirstExchange` | hash_frx/duplex_sponge.py:207-278 | from the zero state, a block absorbed and a squeeze return rate lanes of the permuted state with the block added |
| `Duplex.AbsorbSplits` | hash_frx/duplex_sponge.py:229-263 | under every convention and from every state, two absorbs are one |
| `Duplex.SqueezeSplits` | hash_frx/duplex_sponge.py:265-312 | under the always-permuting rule, two squeezes are one in output and state when the second asks for something |
| `Duplex.SkipDiffers` | hash_frx/duplex_sponge.py:291-312 | the skipping rule differs only on a whole rate asked for part way through a block, and then returns that block's lanes rotated off an unpermuted state |
| `Duplex.FrontIsConjugate` | hash_frx/duplex_sponge.py:198-207 | every trailing-rate sponge has a leading-rate partner over the conjugated permutation |
| `Duplex.RunAnswers` | hash_frx/duplex_sponge.py:229-312 | an interleaved run's outputs are its squeezes' answers in order, each from the state the requests before it leave |
| `Duplex.RunsMirror` | hash_frx/duplex_sponge.py:198-312 | a trailing-rate sponge and its partner stay mirrored and give the same outputs on every interleaved run |
| `Duplex.TrailingIsLeading` | hash_frx/duplex_sponge.py:70-84 | from the initial state, every run's outputs are the leading-rate partner's |
| `Sp800185.EncodeLengthIsLeast` | hash_frx/keccak/encodings.py:73-85 | the byte count is the smallest positive n with 256^n > x, and one byte |
| `Sp800185.EncodableIs` | hash_frx/keccak/encodings.py:63-85 | exactly the values below 256^255 are encoded |
| `Sp800185.EncodingsTell` | hash_frx/keccak/encodings.py:88-111 | the body is x in base 256, most significant byte first, and the count byte is its length |
| `Sp800185.LeftEncodeReads` | hash_frx/keccak/encodings.py:88-98 | read by its count byte, a left encoding gives back its value and what follows |
| `Sp800185.RightEncodeReads` | hash_frx/keccak/encodings.py:101-111 | read from the end, a right encoding gives back its value and what precedes |
| `Sp800185.PadBytesFill` | hash_frx/keccak/encodings.py:132-151 | the padding completes a block and never adds one |
| `Sp800185.StringsRead` | hash_frx/keccak/encodings.py:114-129 | a row of encoded strings reads back, counted or to the end |
| `Sp800185.PadBytesReads` | hash_frx/keccak/encodings.py:132-151 | a padded block of strings reads back as its width, its strings and what follows its zeros |
| `Sp800185.BitLengthWithin` | hash_frx/keccak/encodings.py:63-85 | the range test on x is a test of its bit length |
| `Sp800185.PrefixReads` | hash_frx/keccak/cshake.py:120-130 | a prefix reads back as its width, its name, its customization, the zeros and the message behind it, either string empty |
| `Sp800185.CShakeDetermines` | hash_frx/keccak/cshake.py:120-186 | the domain byte and the absorbed bytes determine the name, the customization and the message, the fallback to plain SHAKE included |
| `Sp800185.TupleMessage` | hash_frx/keccak/tuple_hash.py:62-90 | the parts loop is the prefix, each element behind its length, the tail; an empty tuple is the error |
| `Sp800185.TupleHashReads` | hash_frx/keccak/cshake.py:95-117 | TupleHash's bytes, read by SP 800-185 alone, give the name, the customization, every element and L, the output's bits or zero |
| `Sp800185.TupleHashDetermines` | hash_frx/keccak/tuple_hash.py:62-90 | the absorbed bytes determine the customization, the tuple and L, XOF or not |
| `Sp800185.KmacReads` | hash_frx/keccak/kmac.py:212-241 | KMAC's bytes read back as the name, the customization, the key, the message and L |
| `Sp800185.KmacDetermines` | hash_frx/keccak/kmac.py:212-241 | the absorbed bytes determine the customization, the key, the message and L |
| `Sp800185.NamesSeparate` | hash_frx/keccak/cshake.py:95-117 | TupleHash and KMAC never absorb the same bytes at one rate |
| `Sp800185.KmacRow` | hash_frx/keccak/kmac.py:212-241 | the row's head and tail around the message are the bytes absorbed; a length past one count byte is the error |
| `Sp800185.OperandMessage` | hash_frx/keccak/kmac.py:77-104 | the operand-key path absorbs the row path's bytes |
| `Word64.RotrJoins` | hash_frx/word64.py:48-67 | the three-case half rotation is the 64-bit one by n mod 64, for every count |
| `Word64.RotlJoins` | hash_frx/keccak/lane.py:31-53 | the same to the left |
| `Word64.ShrJoins` | hash_frx/sha512/sha512.py:285-292 | the half shift is the 64-bit one, 0 < n < 32 |
| `Word64.AddJoins` | hash_frx/word64.py:70-78 | the comparison carry makes the half-wise sum the sum modulo 2^64 |
| `Word64.BitwiseJoins` | hash_frx/word64.py:81-88 | xor, and and or commute with joining |
| `Word64.Xor64` | hash_frx/word64.py:81-88 | the variadic fold is the xor of the joined words |
| `Word64.RotlEachIs` | hash_frx/keccak/lane.py:61-113 | the masked table form with its dummy shift is the three-case rotation, for every offset |
| `Sha256.LoopRoundIs` | hash_frx/sha256/sha256.py:263-280 | the loop body's round is FIPS 180-4's |
| `Sha256.Compress` | hash_frx/sha256/sha256.py:248-282 | the fused window loop is FIPS 180-4 section 6.2.2, for every block, state and table |
| `Sha512.LoopRoundJoins` | hash_frx/sha512/sha512.py:320-349 | the round on half pairs joins to the round on 64-bit words |
| `Sha512.Compress` | hash_frx/sha512/sha512.py:301-354 | the fused loop over halves is FIPS 180-4 section 6.4.2 on the joined words |
| `Sm3.RotlIntIs` | hash_frx/sm3/sm3.py:113-122 | the host rotation is the standard's by n mod 32, zero included |
| `Sm3.LoopRoundIs` | hash_frx/sm3/sm3.py:193-214 | on either side of round 16 the loop body over the pre-rotated table is GB/T 32905's round over W and W' |
| `Sm3.RoundsFrom` | hash_frx/sm3/sm3.py:193-219 | one loop on one side of round 16 is the standard's rounds over it |
| `Sm3.Compress` | hash_frx/sm3/sm3.py:176-222 | the two loops are the standard's compression over its 68-word and 64-word schedules |
| `KeccakF.ThetaStep` | hash_frx/keccak/permutation.py:146-161 | the folded parity and rolls are theta |
| `KeccakF.RhoStep` | hash_frx/keccak/permutation.py:184-192 | the table-driven rotations are rho, for every offset grid |
| `KeccakF.PiMoveJoins` | hash_frx/keccak/permutation.py:164-181 | the shear, transpose and row reorder are pi |
| `KeccakF.ChiStepJoins` | hash_frx/keccak/permutation.py:195-204 | the rolled rows are chi |
| `KeccakF.IotaStepJoins` | hash_frx/keccak/permutation.py:207-229 | the patched lane is iota, zero halves skipped |
| `KeccakF.UnpackPack` | hash_frx/keccak/permutation.py:131-143 | unpacking the interleaved state inverts packing it |
| `KeccakF.UnpackTells` | hash_frx/keccak/permutation.py:131-143 | lane (x, y) is the value of bytes 8 (5y + x) on, the first the least significant |
| `KeccakF.Rounds` | hash_frx/keccak/permutation.py:232-245 | the 24 rounds are FIPS 202 section 3.2's step mappings on 25 lanes, for every state |
| `BlakeMix.DiagonalsAtOnce` | hash_frx/blake3/compress.py:119-130 | rolled by 1, 2, 3 and rolled back, it is the four diagonal calls |
| `Blake32.RolledRoundIs` | hash_frx/blake3/compress.py:103-130 | a rolled round is the eight sequential calls, for all words |
| `Blake32.Schedules` | hash_frx/blake3/compress.py:71-76 | the module loop composes the seven rows |
| `Blake32.ScheduleReads` | hash_frx/blake3/compress.py:71-76 | slicing the original block by the composed order reads the message permuted between rounds |
| `Blake32.Compress` | hash_frx/blake3/compress.py:133-205 | seven rolled rounds and the feed-forward are section 2.2 of the BLAKE3 paper |
| `Blake32.Compress2s` | hash_frx/blake2s/blake2s.py:272-319 | ten rolled rounds with the folded counter are RFC 7693 section 3.2's F |
| `Blake32.Blake2sState` | hash_frx/blake2s/blake2s.py:380-385 | the block loop is RFC 7693 section 3.3's chain, offsets and last-block flag included |
| `Blake2b.RolledRoundJoins` | hash_frx/blake2b/blake2b.py:383-391 | a rolled round of half pairs is the eight calls on 64-bit words |
| `Blake2b.ColumnsTell` | hash_frx/blake2b/blake2b.py:334-399 | message word j of a block is the value of its eight bytes |
| `Blake2b.Compress` | hash_frx/blake2b/blake2b.py:334-399 | twelve rolled rounds of pairs are RFC 7693 section 3.2's F, for every offset below 2^64 |
| `Blake2b.Blake2bState` | hash_frx/blake2b/blake2b.py:457-462 | the block loop is RFC 7693 section 3.3's chain |
| `Poseidon.SparseIsMatrix` | hash_frx/poseidon/linear.py:25-67 | the sparse partial layer is its matrix's product with the state, at every width from two |
| `Poseidon.RoundKeepsRelation` | hash_frx/poseidon/sparse.py:230-232 | a sparse partial round keeps the state the naive one's, up to the block-diagonal basis and the lane-0-zero offset |
| `Poseidon.Permute` | hash_frx/poseidon/sparse.py:207-237 | the round loops are the specified sparse schedule |
| `Poseidon.SparseIsNaive` | hash_frx/poseidon/sparse.py:207-237 | the sparse schedule is the naive dense one, written lane by lane, on every state, width, round count and S-box, whenever its constants factor the naive ones |
| `PoseidonFactors.PowerUndoes` | hash_frx/poseidon/testing/sparse_test.py:602-607 | the k-th power of an inverse undoes the matrix applied k times |
| `PoseidonFactors.RoundFactors` | hash_frx/poseidon/testing/sparse_test.py:593-622 | round i's derived sparse matrix and lane-0 constant factor the dense layer and the full-width constant |
| `PoseidonFactors.OptimizedFactors` | hash_frx/poseidon/testing/sparse_test.py:593-624 | every naive instance whose dense matrix, and that matrix without lane 0, are invertible has a factorization, the transition matrix included |
| `PoseidonFactors.OptimizedIsNaive` | hash_frx/poseidon/testing/sparse_test.py:627-675 | on those derived constants the sparse schedule is the naive instance's own, for every state and S-box |
| `Primitives.CompressBlocks` | hash_frx/sha256/sha256.py:328-338 | the block loop from a midstate is FIPS 180-4's chain of hash values |
| `Primitives.Sha256StreamIsHash` | hash_frx/sha256/sha256.py:546-602 | over SHA-256's own compression, any absorbs and a finalize give FIPS 180-4's hash of everything absorbed below 2^32 bytes, its padding, message words and digest written out from the standard |
| `Primitives.PermuteLanes` | hash_frx/keccak/permutation.py:131-245 | unpacking, the 24 rounds on half pairs and packing are Keccak-f[1600] on the sponge's 50 words |
| `Primitives.FlagWordsOr` | hash_frx/blake3/compress.py:54-60 | or-ing domain flag words is uniting the flags |
| `Primitives.FlagWordIs` | hash_frx/blake3/compress.py:54-60 | each domain flag has its own bit, in the source's order |
| `Primitives.CompressNode` | hash_frx/blake3/compress.py:133-205 | a node's compression is the BLAKE3 paper's on its operands, every output a word |
| `Primitives.StreamAndBatchAgree` | hash_frx/blake3/modes.py:740-755 | over that compression the incremental hasher under any split and the batched one-shot hash give the same bytes, the paper's |

## Left out

- Blake3Streaming.AnySplit: each absorb is at most 2^32 - 64 bytes, so that the uint32 sum of any held block and the data fits; Blake3Streaming.AbsorbExact says what happens past it.
- Blake3Streaming.StackFits: stated to 2^64 bytes, the input the standard allows; the counter itself would go on to 2^64 chunks.
- Blake3Streaming.Hasher.constructor: the source hands back a new state by value; the class updates one in place, which the same steps allow because no two states share a stack.
- MdStream.StreamIsDigest: below 2^32 bytes for a bit length and below 2^31 less the reservation for a block count, the exact ranges of the int32 count (MdStream.StreamPadsExactly, Md.FieldValueExact).
- MdStream.Absorb: one absorb of more than 2^31 - block bytes, whose gather positions an int32 does not hold, is accepted here.
- Shake.AbsorbBytes: the same past 2^31 - rate bytes.
- Blake3Streaming.Hasher.Absorb: a single absorb of 2^32 bytes or more wraps here; the source may reject its length first.
- MdStream.Finalize: one row of the batch of extras; the rows share a midstate and nothing else.
- MdRuntime.BytesDigest: one row of a batch that shares a length; the padded region's size is below 2^31, the range of the int32 positions it is built from.
- PoseidonFactors.OptimizedFactors: the inverses are given, not computed by elimination; each round constant is drawn back through the dense inverse where the source solves for it in the sparse basis.
- MdRuntime.AtCapacity: one row; host and device branches write the same bytes and are not told apart.
- MdRuntime.DigestMessage: one row of the batch.
- Pbkdf2.Derive: one password and one salt; broadcasting them over a batch, and its shape error, are left out.
- Shake.Hash: one row of the batch.
- Sp800185.TupleMessage: one row; a mismatch of the elements' row counts is left out.
- Sp800185.OperandMessage: one row, its key not broadcast.
- Blake32.Blake2sState: the state after the last block, one row; its little-endian serialization is left out.
- Blake2b.Blake2bState: the same.
- The batch axis, outside BLAKE3's one-shot tree, where rows share calls: every other batched operation is modelled on one row.
- BLAKE3's flags are a set of bits, and `|` is union (Primitives.FlagWordsOr).
- SHA-2's midstate is a sequence of words packed big-endian. Grostl's output transform, SHA-224, SHA-384 and the truncated SHA-512 rows are not modelled.
- Keccak's grids hold half pairs where the source keeps two grids of halves; rho's masks are written as remainders.
- Round constants, initial values, SIGMA, rho offsets and Poseidon constants are parameters. BLAKE3's message permutation, SM3's T_j and the function names are not.
- A field element of the duplex is an integer and `+` any operation; Poseidon's field is any commutative semiring.
- Serialization of BLAKE2's final state, keyed and salted BLAKE2, HKDF, MGF1, ParallelHash, Ascon and the field sponges.
- The flattened-operand body of the sparse Poseidon permute, which only reshapes the constants.
- Markers, fused regions, routing, jit zones, dtype and rank errors: they do not change bytes.
- Cryptographic strength of any kind.
