# A verified model of libnodecc

libnodecc wraps libuv in C++ classes and adds its own byte kernels, buffers, an event emitter,
streams, HTTP framing and a cross-thread channel. This project models those parts in Dafny, one
module per component, and proves what the components promise. `dafny verify dfyconfig.toml`
checks all of it.

| files | component |
|---|---|
| `Common.dfy` | 64-bit arithmetic, options and concatenation, as several components use them |
| `Crc32cSpec.dfy`, `Crc32c.dfy` | CRC-32C by slicing-by-8, against polynomial division (section 12.1 of RFC 3720) |
| `Base64Spec.dfy`, `Base64.dfy` | the three-words-per-iteration encoder and the decoder, against sections 4 and 5 of RFC 4648 |
| `Sha1Spec.dfy`, `Sha1Vector.dfy`, `Sha1.dfy` | the streaming block machine, against sections 5.1.1 and 6.1.2 of FIPS 180-4 and its example "abc" |
| `Numbers.dfy`, `MutableBuffer.dfy` | digit counts, powers, number printing, and the growable buffer with its copying cost |
| `Buffers.dfy` | reference counted buffers |
| `EmitterSpec.dfy`, `Emitter.dfy` | the event emitter: meaning on lists, and the linked lists with cursors that refine it |
| `StreamSpec.dfy`, `StreamRuns.dfy`, `Stream.dfy` | write path, watermarks, half-close and object lifetime of a libuv stream: buffers and levels, what a stream does in any run, and the classes that do it with reference counts |
| `HttpSpec.dfy`, `Http.dfy` | framing of outgoing HTTP/1.1 messages, with a decoder for section 4.1 of RFC 7230 |
| `Query.dfy` | the query-string scanner |
| `Channel.dfy` | the multi-producer channel with coalescing wakeups |

Each algorithm that works step by step is a method with the source's loops and branches, proved
against a short specification; the theorems about the specification are lemmas. A 64-bit
little-endian host is fixed. An address is a number, so alignment is a parameter of the kernels
and not an assumption. libuv and user callbacks are an environment: callbacks are finite trees of
actions that may use the same object again, and libuv's answers are arguments.

Where the code does not do what one would expect, the model follows the code, a lemma or contract
gives the input, and the condition under which the expectation holds is proved in both directions:

- Pushing an empty buffer into a CRC object resets its register (`Crc32c.PushedIsDivision`,
  `Crc32c.EmptyPieceRestarts`).
- `base64::encode` leaves its buffers unless the input is shorter than 12 bytes or
  `3 * (address % 4) <= length % 12`, because the end of the word loop is taken from the advanced
  pointer; empty input at address 0 or 1 leaves them too (`Base64.Encode`).
- `base64::decode` cuts off symbols behind the last whole group, and from 23 symbols on writes them
  behind its output whenever two or three are left. Characters that are no symbols break the
  groups up: what is written then are the bytes of whatever two to four values are pending at the
  end of a group, and of more than four none. So nothing behind a padded group is decoded
  (`Base64.Decode`, `Base64.SymbolsOverrun`, `Base64.NothingAfterPadding`).
- The digest serialisation of SHA-1 stores zeros for the upper three bytes of every word
  (`Sha1.StoredBytesExact`); the hash words themselves are right.
- `digits` yields 0 for the number 0 in the power-of-two bases, and `append_number` then divides
  by zero if the buffer has storage. In the bases left to logarithms `append_number` prints as many
  of the last digits as their quotient is truncated to; with exact logarithms it counts one digit
  too few, and the leading digit is not printed. If that leaves no digit, it divides by zero in the
  even bases, and writes behind the contents, possibly behind the storage, in the odd ones
  (`Numbers.DigitsExact`, `Numbers.NoDigitsDivisor`, `MutableBuffer.Buffer.AppendNumber`).
- An empty HTTP chunk divides by zero there, or is sent without a size, which no decoder accepts
  (`Http.OutgoingMessage.HttpWrite`, `Http.CodedDecodes`).
- A chunked message without any chunk is sent without its header block (`Http.ChunkedMessage`).
- A handler removed while it is being invoked ends the emit and is never freed, because nothing
  sets the deletion flag (`EmitterSpec.SelfRemovalLeaks`, `EmitterSpec.DroppedStay`).
- A write on a flooded stream that leaves the level below the high mark ends the flood without a
  drain event (`StreamSpec.LostDrain`, `StreamSpec.NoLostDrain`).
- A write of which libuv sends a part and refuses the rest loses the part (`StreamRuns.PushedBalanced`).
- A buffer assigned to itself is emptied (`Buffers.Buffer.AssignCopy` and its siblings).
- The query scanner keeps a key for the segments after it, because the key of an insertion is a
  copy. Once the key is in the map that does no harm (`Query.Retry`, `Query.CleanIsMeant`); after
  `key=` with an empty value the next segment without a key is taken for its value
  (`Query.StaleField`, `Query.AttemptsArePairs`, `Query.ParamsAreMeant`).

## Model

| member | source | states |
|---|---|---|
| `Crc32cSpec.StepsXor` | src/util/crc32c_8x256_tables.cc:14-26 | any number of reflected register steps is linear over xor |
| `Crc32cSpec.CrcIsDivision` | src/util/crc32c_8x256_tables.cc:18-20 | for all data and registers, the reflected register is the remainder of dividing by 0x1EDC6F41 with the coefficient order reversed |
| `Crc32c.TableIsSteps` | src/util/crc32c_8x256_tables.cc:28-449 | an entry of table k, defined by the recurrence over the previous table, is the effect of its index after k + 1 whole bytes |
| `Crc32c.ByteLookup` | src/util/crc32c.cc:44 | the byte statement of the prologue and tail feeds exactly one byte to the register |
| `Crc32c.FourLookups` | src/util/crc32c.cc:52-55 | four table lookups replace 32 register steps, at any distance from the end of the slice |
| `Crc32c.EightBytes` | src/util/crc32c.cc:47-63 | one turn of the sliced loop consumes exactly the eight bytes of two little-endian words, in order |
| `Crc32c.PushBuffer` | src/util/crc32c.cc:24-70 | for every register, start address and data, prologue, sliced loop and tail yield the bytewise register over all the data, and 0xffffffff for empty data |
| `Crc32c.PushedIsDivision` | src/util/crc32c.cc:29-31 | a push is the division of RFC 3720 if and only if the data is not empty or the register is the initial one |
| `Crc32c.ChecksumOf` | src/util/crc32c.cc:9-11 | the one-shot checksum, at any alignment and for empty data too |
| `Crc32c.Crc32cObject.Push` | src/util/crc32c.cc:16-18 | a buffer at any alignment is appended to the object's message, except that an empty one starts a new message |
| `Crc32c.Crc32cObject.Checksum` | src/util/crc32c.cc:20-22 | the checksum of the message as if it had been in one piece |
| `Crc32c.ChecksumOfPieces` | src/util/crc32c.cc:13-22 | an object fed non-empty buffers, each at an alignment of its own, yields the one-shot checksum of their concatenation |
| `Crc32c.SplitIndependence` | src/util/crc32c.cc:16-22 | however a message is cut into non-empty pieces, the register is that of the whole message |
| `Crc32c.EmptyPieceRestarts` | src/util/crc32c.cc:29-31 | with empty pieces, the object restarts at the last one, and agrees with the one-shot checksum exactly if everything up to there leaves the initial register |
| `Crc32c.CrcInjective` | src/util/crc32c.cc:43-67 | feeding data never merges two registers |
| `Crc32c.CheckValue` | src/util/crc32c.cc:9-11 | the checksum of "123456789" is 0xe3069283 |
| `Crc32c.Residue` | src/util/crc32c.cc:16-22 | a message followed by four bytes leaves the register 0xb798b438 if and only if they are its checksum, low byte first |
| `Base64Spec.ValueOfLetter` | src/util/base64.cc:9-21 | the decoding table inverts both alphabets, and neither contains the padding |
| `Base64Spec.Alphabets` | src/util/base64.cc:17-21 | both encoding tables, character by character |
| `Base64Spec.LetterOfValue` | src/util/base64.cc:6-15 | below 128 the decoding table knows the letters of the two alphabets and nothing else; from 128 on it yields zero |
| `Base64Spec.OwnLetters` | src/util/base64.cc:17-21 | no encoding contains a letter that only the other alphabet has |
| `Base64Spec.TestVectors` | src/util/base64.cc:27-219 | the test vectors for one, two and six bytes of section 10 of RFC 4648 |
| `Base64Spec.GroupBytes` | src/util/base64.cc:178-185 | the four sextets of a group give its three bytes back |
| `Base64Spec.RoundTrip` | src/util/base64.cc:27-307 | for every byte sequence and both alphabets, the standard encoding is well formed and decodes to the sequence |
| `Base64Spec.EncodedLength` | src/util/base64.cc:35 | the encoding fills exactly the size reserved for it |
| `Base64Spec.EncodeAppend` | src/util/base64.cc:114-189 | whole groups can be encoded separately |
| `Base64Spec.QuadDecodes` | src/util/base64.cc:243-277 | a full group in front of any well-formed text decodes to its bytes in front of the rest |
| `Base64.TwelveBytes` | src/util/base64.cc:141-166 | the sixteen mask-and-shift expressions over three byte-swapped words are the encoding of twelve bytes |
| `Base64.EncodeTwelve` | src/util/base64.cc:131-170 | one turn of the word loop, at an aligned address, extends the encoded prefix by twelve bytes |
| `Base64.EncodeTriples` | src/util/base64.cc:177-189 | the triple loop extends the encoded prefix up to its limit |
| `Base64.EncodeWords` | src/util/base64.cc:89-170 | behind the bytes skipped, three times the offset from an aligned address, every word load of the loop is aligned to four bytes; the loop stays within the input if and only if the bytes skipped fit behind the last whole twelve |
| `Base64.EncodeTail` | src/util/base64.cc:191-215 | the fall-through switch completes the encoding with its padding |
| `Base64.Encode` | src/util/base64.cc:27-219 | for every address, input and alphabet: the standard encoding if and only if all accesses stay in bounds, with the exact condition on address and length |
| `Base64.GroupFlushes` | src/util/base64.cc:249-274 | four symbols, or a padded last group, fed to the accumulator flush exactly the bytes they encode |
| `Base64.ProgressStep` | src/util/base64.cc:243-277 | the loop invariant of the decoder across groups, on the low bits of the accumulator and the count of pending symbols |
| `Base64.DecodeGroups` | src/util/base64.cc:243-277 | the group loop writes the decoding of the groups read, within the output, and leaves nothing that the final switch would flush |
| `Base64.TracksFlush` | src/util/base64.cc:256-274 | the bytes taken from the 32-bit accumulator are those of the last two, three or four values of the text, whatever was shifted in before |
| `Base64.Decode` | src/util/base64.cc:221-307 | for every text: out of bounds exactly under the condition given, and otherwise the bytes of the values pending at the end of each group, characters without a value skipped; every well-formed text decodes to what it encodes, and so do whole groups in front of bytes left over |
| `Base64.NothingAfterPadding` | src/util/base64.cc:256-274 | behind a padded group, whole groups of symbols add nothing, however many there are, because one value stays pending |
| `Base64.GroupsFit` | src/util/base64.cc:243-277 | no text whose length is a multiple of four is written out of bounds, whatever characters it has |
| `Base64.SymbolsOverrun` | src/util/base64.cc:279-301 | a text of symbols is written out of bounds if and only if it has 23 symbols or more and two or three behind its last whole group |
| `Base64.ThereAndBack` | src/util/base64.cc:27-307 | decoding what the encoder yields, wherever both are stored, gives the input |
| `Sha1Spec.ZeroBytesLeast` | src/util/sha1.cc:114-131 | the padding has the least number of zero bytes |
| `Sha1Spec.HashAppend` | src/util/sha1.cc:103-107 | hashing one more block is one more compression |
| `Sha1Vector.KIsRoot` | src/util/sha1.cc:81-93 | the constants of the eighty rounds are 2^30 times the square roots of 2, 3, 5 and 10, rounded down |
| `Sha1Vector.HashOfAbc` | src/util/sha1.cc:57-142 | the hash of "abc", padding, schedule and all eighty rounds included, is a9993e36 4706816a ba3e2571 7850c26c 9cd0d89d |
| `Sha1.SourceFIsF` | src/util/sha1.cc:81-93 | the or-forms of the round functions are the xor-forms of the standard, for every round |
| `Sha1.Schedule` | src/util/sha1.cc:58-69 | the 80 words of the message schedule |
| `Sha1.RoundsStep` | src/util/sha1.cc:95-100 | the assignments of one round compute the next working variables |
| `Sha1.EightyRounds` | src/util/sha1.cc:71-101 | the loop computes the eighty rounds |
| `Sha1.Sha1Object.ProcessBlock` | src/util/sha1.cc:57-108 | the chaining value becomes the compression of the block |
| `Sha1.AbsorbByte` | src/util/sha1.cc:39-46 | taking one byte keeps chaining value and partial block consistent with everything taken, across block ends |
| `Sha1.Sha1Object.PushImpl` | src/util/sha1.cc:39-46 | one byte more has been taken, and the index is the length modulo 64 |
| `Sha1.Sha1Object.PushByte` | src/util/sha1.cc:34-37 | the same, keeping the bit counter modulo 2^64 |
| `Sha1.Sha1Object.Push` | src/util/sha1.cc:48-55 | a buffer is appended to what has been taken, so any split of a message concatenates |
| `Sha1.Sha1Object.PushZeros` | src/util/sha1.cc:117-131 | the padding loops append zero bytes up to a position |
| `Sha1.LengthFieldBytes` | src/util/sha1.cc:133-142 | the eight shifted bytes of the counter are the length field of the standard |
| `Sha1.Sha1Object.Finish` | src/util/sha1.cc:110-142 | whatever was taken, it has been padded as in section 5.1.1 of FIPS 180-4, and the index is back at 0 |
| `Sha1.Sha1Object.WholeMessage` | src/util/sha1.cc:57-108 | at a block boundary the chaining value is the hash of everything taken |
| `Sha1.StoredBytesExact` | src/util/sha1.cc:146-149 | the four stored bytes are those of the word if and only if the word is below 256 |
| `Sha1.Sha1Object.Serialise` | src/util/sha1.cc:144-150 | the same for the five words of a digest |
| `Sha1.Sha1Object.GetDigest` | src/util/sha1.cc:110-151 | after any pushes, the hash words are the fold of the compression function over the padded message |
| `Numbers.ReadNotation` | src/buffer/mutable_buffer.cc:102-107 | reading a notation back gives the number, in every base from 2 to 36 |
| `Numbers.NotationDigits` | src/buffer/mutable_buffer.cc:103-105 | no superfluous leading zero, and only digits of the base |
| `Numbers.DigitChars` | src/buffer/mutable_buffer.cc:103 | the table of the 36 digits, character by character |
| `Numbers.NotationLowerCase` | src/buffer/mutable_buffer.cc:103-105 | no notation contains an upper case letter |
| `Numbers.NotationLength` | src/util/math.cc:118-170 | the length of a notation follows from the powers the number lies between |
| `Numbers.LadderBounds` | src/util/math.cc:138-158 | the ladder of comparisons finds the powers of ten around every 64-bit number |
| `Numbers.CeilingFormula` | src/util/math.cc:161-166 | the formula over the two bit lengths is the number of digits of every positive number |
| `Numbers.DigitsExact` | src/util/math.cc:118-170 | `digits` is the length of the notation if and only if the base is 10, or a power of two and the number positive, or one left to logarithms whose quotient is truncated to that length; for zero in the power-of-two bases it is 0, and with exact logarithms one less than the length |
| `Numbers.LogUndercounts` | src/util/math.cc:168 | with exact logarithms, their quotient rounded down is the length of the notation less one |
| `Numbers.SquareAndMultiply` | include/libnodecc/util/math.h:36-40 | one turn of the loop keeps result times base to the exponent, modulo any m |
| `Numbers.Ipow` | include/libnodecc/util/math.h:32-43 | for every base and exponent, the power modulo 2^64, despite all truncations on the way |
| `Numbers.DivisorExact` | src/buffer/mutable_buffer.cc:97-98 | with no more digits than the notation has, the first divisor of `append_number` is the untruncated power |
| `Numbers.NoDigitsDivisor` | src/buffer/mutable_buffer.cc:97-98 | with no digits at all the divisor is truncated to zero if and only if the base is even |
| `Numbers.NotationAt` | src/buffer/mutable_buffer.cc:105 | the quotient and remainder pick exactly the digit of the position |
| `MutableBuffer.Buffer.Reallocate` | src/buffer/mutable_buffer.cc:160-161 | moving to a new block keeps the common prefix, at the cost of its length |
| `MutableBuffer.Buffer.ExpandSize` | src/buffer/mutable_buffer.cc:190-208 | room for n more bytes behind the old contents, with the capacity and cost bounds kept |
| `MutableBuffer.Buffer.Append` | src/buffer/mutable_buffer.cc:54-62 | the contents are extended by the text |
| `MutableBuffer.Buffer.AppendNumber` | src/buffer/mutable_buffer.cc:95-112 | the contents are extended by the notation of the number; a base out of range changes nothing; in the bases left to logarithms, by its last digits, as many as the quotient of the logarithms is truncated to, and with exact logarithms by all but the leading one; with no digits at all nothing is appended, and the call traps or writes out of bounds exactly under the condition given |
| `MutableBuffer.Buffer.PrintDigits` | src/buffer/mutable_buffer.cc:101-108 | the division loop terminates, keeps what is in front of it, and writes one digit for every digit of the divisor, or runs out of the storage if and only if they do not fit |
| `MutableBuffer.QuotientsAreDigits` | src/buffer/mutable_buffer.cc:101-108 | started with the power of the base for some number of digits, the loop writes exactly that many last digits of the notation |
| `MutableBuffer.Buffer.SetSize` | src/buffer/mutable_buffer.cc:133-169 | from any state: the size asked for, capacity within half of it, the common prefix kept |
| `MutableBuffer.Buffer.SetCapacity` | src/buffer/mutable_buffer.cc:118-131 | from any state: room for n bytes, the size preserved unless it exceeds n |
| `MutableBuffer.GrowthPays` | src/buffer/mutable_buffer.cc:195-202 | the potential argument: growing pays for moving the old contents |
| `MutableBuffer.Run` | src/buffer/mutable_buffer.cc:54-208 | for every sequence of appends on an empty buffer: contents are the concatenation, size <= capacity <= max(16, 1.5 size), and all reallocations together copied at most 17/8 of the capacity |
| `Buffers.Control.Release` | src/buffer/buffer.cc:170-191 | the memory is freed when the count reaches zero, and not twice |
| `Buffers.CountUpdated` | src/buffer/buffer.cc:31-53 | how the number of handles on a block changes when one handle is pointed elsewhere |
| `Buffers.Pool.StrongIsAlive` | include/libnodecc/buffer/buffer.h:84-91 | in every state, a strong handle's range lies inside its block, whose memory has not been freed |
| `Buffers.Pool.NothingLeaks` | src/buffer/buffer.cc:55-57 | once all handles are gone, all memory has been freed |
| `Buffers.Buffer.Sized` | src/buffer/buffer.cc:9-11 | a new block with exactly one handle, or none for size 0 |
| `Buffers.Buffer.Copied` | src/buffer/buffer.cc:13-15 | the copy shows the same range; every count is still the number of handles |
| `Buffers.Buffer.Moved` | src/buffer/buffer.cc:17-19 | the range changes hands and the source is emptied |
| `Buffers.Buffer.Share` | src/buffer/buffer.cc:47-50 | taking over a range retains its block |
| `Buffers.Buffer.Release` | src/buffer/buffer.cc:153-159 | the handle is emptied and its block counts one less |
| `Buffers.Buffer.AssignCopy` | src/buffer/buffer.cc:45-53 | the handle holds what the other held, or is empty if assigned to itself |
| `Buffers.Buffer.AssignMove` | src/buffer/buffer.cc:38-43 | the same with the other emptied |
| `Buffers.Buffer.AssignView` | src/buffer/buffer.cc:31-36 | a weak reference to what the other shows, or empty if assigned to itself |
| `Buffers.Buffer.Swap` | src/buffer/buffer.cc:63-67 | both handles exchange what they hold, with no count touched |
| `Buffers.Buffer.Destroy` | src/buffer/buffer.cc:55-57 | the handle is gone, and the counts are those of the handles left |
| `Buffers.SliceShows` | src/buffer/buffer.cc:95-111 | a slice shows the bytes between two positions, cut off at the end; unless it is empty it is in the same memory, and strong if the buffer is |
| `Buffers.Buffer.Slice` | src/buffer/buffer.cc:95-111 | a new handle on the section, strong if the buffer is |
| `Buffers.Buffer.Copy` | src/buffer/buffer.cc:81-93 | memory of its own with the common prefix |
| `EmitterSpec.StepKeeps` | src/events/emitter.cc:11-121 | every action, whatever handlers do in response, keeps the lists ordered and disjoint and every handler either listed, freed or dropped, none freed while invoked; nothing freed or dropped comes back |
| `EmitterSpec.ExecKeeps` | src/events/emitter.cc:11-121 | the same for every program |
| `EmitterSpec.WalkKeeps` | include/libnodecc/events/emitter.h:134-166 | the same for every emit, nested ones included |
| `EmitterSpec.WalkDelivers` | include/libnodecc/events/emitter.h:141-158 | an emit invokes handlers in the order of registration, each once; it reaches the end of the list unless the last one invoked was removed meanwhile |
| `EmitterSpec.WalkInvokes` | include/libnodecc/events/emitter.h:141-158 | it invokes only handlers registered for the event, before or during the emit |
| `EmitterSpec.EmitDelivers` | include/libnodecc/events/emitter.h:134-166 | the handlers invoked are exactly those listed at the end if and only if none of them was removed; so it is in particular if nothing is removed |
| `EmitterSpec.Fate` | src/events/emitter.cc:41-63 | a listed handler stays listed, is freed, or is dropped |
| `EmitterSpec.DroppedStay` | src/events/emitter.cc:57-62 | a handler removed while being invoked is freed in no continuation |
| `EmitterSpec.SelfRemovalLeaks` | include/libnodecc/events/emitter.h:155-157 | the shortest program that leaks a handler |
| `EmitterSpec.WithoutIs` | src/events/emitter.cc:72-93 | removing a handler takes out that one and keeps the order |
| `Emitter.Handler.Delete` | src/events/emitter.cc:57-58 | a handler is deleted at most once and never under a cursor |
| `Emitter.WalkTurn` | include/libnodecc/events/emitter.h:144-158 | the meaning of an emit, unfolded for one turn of its loop |
| `Emitter.LinksOn` | src/events/emitter.cc:31-39 | a registration changes the link of the old tail and no other |
| `Emitter.LinksOff` | src/events/emitter.cc:41-63 | a removal clears one link, redirects the predecessor's and leaves all others |
| `Emitter.Unlink` | src/events/emitter.cc:41-63 | `erase` on the pointers, with head and tail |
| `Emitter.DestroyRoot` | src/events/emitter.cc:11-29 | the destructor frees every handler without a cursor and cuts the links of the others |
| `Emitter.Emitter.constructor` | include/libnodecc/events/emitter.h:178-180 | the empty emitter is well formed |
| `Emitter.Emitter.On` | include/libnodecc/events/emitter.h:126-132 | the linked structure stays well formed and means the registration |
| `Emitter.Emitter.Erase` | src/events/emitter.cc:79-86 | the same for the removal of a listed handler, roots without handlers included |
| `Emitter.Emitter.Off` | src/events/emitter.cc:72-93 | the same for a pointer that need not be registered any more |
| `Emitter.Emitter.RemoveAllListeners` | src/events/emitter.cc:115-117 | the same for all handlers of an event |
| `Emitter.Emitter.RemoveAllListenersOfAll` | src/events/emitter.cc:119-121 | the same for all events |
| `Emitter.Emitter.Enter` | include/libnodecc/events/emitter.h:145-148 | a handler's reference count stays the number of cursors on it |
| `Emitter.Emitter.Leave` | include/libnodecc/events/emitter.h:150-157 | the cursor advances over a handler that is still allocated, to its successor in the list as it is by then |
| `Emitter.Emitter.Turn` | include/libnodecc/events/emitter.h:144-158 | one turn with an arbitrary callback |
| `Emitter.Emitter.Emit` | include/libnodecc/events/emitter.h:134-166 | every emit, with arbitrary re-entrant callbacks, accesses only allocated handlers, keeps the structure well formed, and means the emit on lists |
| `Emitter.Emitter.Run` | include/libnodecc/events/emitter.h:124-182 | the same for every program from every well-formed state |
| `StreamSpec.Skip` | include/libnodecc/uv/stream.h:108-125 | for all buffers, empty ones included, and any partial result, the skip loop stops within the list and leaves exactly the bytes not sent, in place |
| `StreamSpec.AdvanceSends` | include/libnodecc/uv/stream.h:146 | what the kernel takes from the queue and what is left is the queue |
| `StreamSpec.MovedKeeps` | include/libnodecc/stream.h:173-175 | the watermark is the sum of the outstanding writes, flooded means above the low mark, and a refused write changes nothing |
| `StreamSpec.NoLostDrain` | include/libnodecc/stream.h:206-256 | over every sequence of moves: without outstanding writes the stream is not flooded; every flood was ended by one drain event if and only if no write in between left the level below the high mark |
| `StreamSpec.LostDrain` | include/libnodecc/stream.h:212 | a flood that ends without an event |
| `StreamRuns.PushedBalanced` | include/libnodecc/uv/stream.h:95-160 | a write keeps sent plus queued equal to written if and only if it does not throw after a part of it has been sent |
| `StreamRuns.OpLeaves` | include/libnodecc/stream.h:206-233 | what every call leaves behind: each write or end that does not throw raises the level by the size of the whole write if any of it is queued, and then settles it; the bytes sent at once and those accepted; the events, connects and shutdowns |
| `StreamRuns.ProgramLeaves` | include/libnodecc/uv/stream.h:72-188 | so does every program, call by call |
| `StreamRuns.NextLeaves` | include/libnodecc/uv/stream.h:29-188 | an event emits its own name first, data, end, error, connect or drain, and then what its handlers do follows; a completed write lowers the level by one write |
| `StreamRuns.RunLeaves` | include/libnodecc/uv/stream.h:29-188 | level, floods, events, bytes and shutdowns after any run are exactly those of its calls and events, in order |
| `StreamRuns.PerformedKeeps` | include/libnodecc/object.h:44-99 | every operation keeps the invariant, whatever the handlers of the destroy event do: nothing outstanding on a closed handle, at most one shutdown, somebody holding every object that is not closed, drain, destroy and end events emitted exactly as often as due |
| `StreamRuns.RanKeeps` | include/libnodecc/uv/stream.h:72-188 | so does every program; it adds requests only while the stream is open, and ends none |
| `StreamRuns.DestroyedKeeps` | include/libnodecc/uv/handle.h:76-87 | a stream is destroyed once: the destroy event comes first, and a destroyed stream is left alone |
| `StreamRuns.NextKeeps` | include/libnodecc/uv/stream.h:29-188 | every event keeps the invariant, and a stream both halves of which have ended is destroyed |
| `StreamRuns.RunKeeps` | include/libnodecc/uv/stream.h:29-188 | so does every run, and what has ended, closed or been logged stays so |
| `StreamRuns.RunsFromStart` | include/libnodecc/stream.h:206-256 | over every run: at most one shutdown, destroy and end event; level, floods, events and bytes are those its calls and events add up to; every flood was ended by a drain event, ended silently, or lasts, and none ended silently if and only if no write or end of the run left a flooded stream below the high mark; a flooded stream has a write outstanding; nobody holds the stream exactly if it is closed and no pointer is left |
| `StreamRuns.DropDestroys` | include/libnodecc/object.h:79-99 | dropping a pointer destroys an open stream if and only if it is the last one and no write, shutdown, connect or callback is pending |
| `StreamRuns.FinishDestroys` | include/libnodecc/object.h:79-99 | so does the end of a callback that has not failed, if and only if nobody holds a pointer and nothing else is pending |
| `StreamRuns.NextPeaceful` | include/libnodecc/uv/stream.h:47-56 | unless it fails, or its handlers destroy the stream or drop the last pointer, an event destroys an open stream if and only if both halves have ended with it |
| `StreamRuns.HalfClose` | include/libnodecc/uv/stream.h:162-188 | over every run in which, while the stream is open, nothing fails, nobody destroys it and a pointer is held throughout every program and handler that runs, however many are copied and dropped: destroyed if and only if both halves have ended, in whichever order |
| `StreamRuns.EofIsAnswered` | include/libnodecc/uv/stream.h:47-56 | over every run in which libuv accepts the shutdown that answers the peer's end: an open stream whose peer has ended has its shutdown pending |
| `StreamRuns.NothingLost` | include/libnodecc/uv/stream.h:72-160 | over every run in which no write fails: sent followed by queued is everything written |
| `StreamRuns.WrittenAre` | include/libnodecc/stream.h:206-233 | a program whose requests are accepted writes exactly the buffers of its writes, in order, up to and including those of its first end |
| `StreamRuns.NothingAfterEnd` | include/libnodecc/stream.h:207-209 | after end nothing is written any more, not even by handlers |
| `StreamRuns.SomeCallbackIsDue` | include/libnodecc/uv/handle.h:76-87 | a destroyed stream that is not closed waits for a callback that can happen |
| `StreamRuns.EndComesNearer` | include/libnodecc/uv/handle.h:76-87 | each such callback brings the close nearer, and no program or handler delays it |
| `Stream.RefusedLevel` | include/libnodecc/uv/stream.h:134-137 | destroying the request of a refused write restores the level and never drains |
| `Stream.UvStream.Release` | include/libnodecc/object.h:79-99 | whoever lets go, the use count stays the number of holders; the last one destroys the stream or deletes the object |
| `Stream.UvStream.Destroy` | include/libnodecc/object.h:44-58 | destroyed at most once, with all that the handlers of the destroy event do |
| `Stream.UvStream.CloseHandle` | include/libnodecc/uv/handle.h:76-87 | the pending close holds a reference while the handlers run |
| `Stream.UvStream.DecreaseWatermark` | include/libnodecc/stream.h:249-256 | the level after a completed write, and whether drain is emitted |
| `Stream.UvStream.TrySend` | include/libnodecc/uv/stream.h:77-126 | what was sent at once and what is left to be queued |
| `Stream.UvStream.QueueWrite` | include/libnodecc/uv/stream.h:128-159 | the request joins the queue with its reference and its share of the watermark, or nothing changes |
| `Stream.UvStream.WriteBuffers` | include/libnodecc/uv/stream.h:72-160 | try-write, skip loop and packed request have exactly the effect of one write |
| `Stream.UvStream.Write` | include/libnodecc/stream.h:206-215 | throws exactly after end or if the rest is refused; otherwise flooded exactly if the high mark is reached |
| `Stream.UvStream.EndBuffers` | include/libnodecc/uv/stream.h:162-188 | the last buffers are written and the shutdown requested with its reference, or the error is thrown |
| `Stream.UvStream.End` | include/libnodecc/stream.h:225-233 | writable afterwards if and only if it throws; otherwise flooded exactly if the high mark is reached |
| `Stream.UvStream.Emit` | include/libnodecc/events/emitter.h:134-166 | the counts stay right whatever the handlers of an event do to the stream |
| `Stream.UvStream.OnWritten` | include/libnodecc/uv/stream.h:146-156 | the drain event if and only if it is due, then the error, then the reference |
| `Stream.UvStream.OnShut` | include/libnodecc/uv/stream.h:171-183 | writing has ended; destroyed if and only if it failed, reading has ended, or the last holder let go |
| `Stream.UvStream.OnConnected` | src/tcp/socket.cc:96-110 | the connect or the error event, then the error, then the reference |
| `Stream.UvStream.OnData` | include/libnodecc/uv/stream.h:44-46 | the data event, whose handlers may drop the last pointer although the callback holds no reference: the object outlives it |
| `Stream.UvStream.OnEof` | include/libnodecc/uv/stream.h:47-56 | the end event the first time, then destroyed if writing has ended and ended otherwise; the object outlives the callback |
| `Stream.UvStream.OnReadFailed` | include/libnodecc/uv/stream.h:57-61 | the error event, then destroyed; the object outlives the callback |
| `Stream.UvStream.OnClosed` | include/libnodecc/uv/handle.h:80-83 | the object is deleted with the close callback, unless pointers are left |
| `Stream.UvStream.Step` | include/libnodecc/uv/stream.h:29-188 | every event has exactly its effect on the state without counts |
| `Stream.UvStream.RunAll` | include/libnodecc/uv/stream.h:29-188 | so has every run, whose theorems therefore hold of the classes |
| `Stream.Lifecycle` | include/libnodecc/object.h:44-99 | the results over whole runs in terms of the fields: half-close both ways, the answer to the peer's end, conservation, floods and their drain events, and deletion exactly with the handle closed and the last pointer gone |
| `HttpSpec.HexRunExact` | src/http/outgoing_message.cc:187-188 | a decoder finds the end of a chunk size |
| `HttpSpec.DecodeOneChunk` | src/http/outgoing_message.cc:180-194 | a chunk in front of anything decodes to its data in front of what that decodes to |
| `HttpSpec.DecodeChunks` | src/http/outgoing_message.cc:179-201 | chunks and last chunk decode to the concatenation, and decoding stops exactly at the end |
| `Http.ContentLength` | src/http/outgoing_message.cc:68-86 | the sum of the sizes, unless it does not fit 64 bits |
| `Http.OutgoingMessage.DecideFraming` | src/http/outgoing_message.cc:51-112 | headers and framing follow the decision table over content length, transfer coding and total size, and the body is chunked if and only if the headers that result announce it |
| `Http.FramingIsAnnounced` | src/http/outgoing_message.cc:51-112 | the body is chunked if and only if the headers sent have no content length and the transfer coding "chunked"; headers set by the caller are sent unchanged, and otherwise the exact content length or the chunked coding is added |
| `Http.MessageIs` | src/http/outgoing_message.cc:39-220 | every message of any number of calls, by the headers its caller has set: with a content length, header block and buffers as they are; with the chunked coding, header block and chunks; with another coding, as they are; with neither, by what is added |
| `Http.HelloInChunks` | src/http/outgoing_message.cc:179-201 | the bytes of one chunk "hello" and the last chunk |
| `Http.CodedDecodes` | src/http/outgoing_message.cc:179-201 | what is written for a list of chunks decodes to their concatenation if and only if none is empty, and otherwise not at all |
| `Http.OneMoreChunk` | src/http/outgoing_message.cc:180-194 | two more slots hold one more chunk, with the line break of the previous one |
| `Http.CloseChunks` | src/http/outgoing_message.cc:196-201 | the closing slot completes the body in all three cases |
| `Http.FillChunks` | src/http/outgoing_message.cc:179-194 | the slots hold header and chunks, unless an empty chunk traps |
| `Http.OutgoingMessage.Assemble` | src/http/outgoing_message.cc:160-208 | the slots used stay within those reserved, and the bytes sent are header block and body |
| `Http.OutgoingMessage.HttpWrite` | src/http/outgoing_message.cc:39-220 | for every call: no slot beyond those reserved, no effect without a socket, a trap exactly for an empty chunk with storage, and otherwise the specified state and bytes, also for the empty chunk that does not trap |
| `Http.OutgoingMessage.Write` | src/http/outgoing_message.cc:30-32 | a call that does not end the message: when it traps, and its effect otherwise |
| `Http.OutgoingMessage.End` | src/http/outgoing_message.cc:34-37 | the same for the call that ends it, which also clears the headers |
| `Http.ChunkedRest` | src/http/outgoing_message.cc:179-201 | over any number of calls, the chunks of all calls as they are written, empty ones included, and one last chunk |
| `Http.ChunkedMessage` | src/http/outgoing_message.cc:112-208 | a whole chunked message: header block and chunks; the header block is missing exactly if there is no chunk at all |
| `Http.RawMessage` | src/http/outgoing_message.cc:121-206 | an unchunked message is header block and concatenation |
| `Http.OwnContentLength` | src/http/outgoing_message.cc:67-99 | a content length the message sets itself is the exact size of the body, and no other header changes |
| `Http.OutgoingMessage.SendChunked` | src/http/outgoing_message.cc:30-220 | any run of calls whose headers ask for chunks, or leave the choice to the message, hands the socket the header block with the chunked coding and a body that a decoder reads back as the concatenation of all chunks |
| `Query.EndOfSegment` | src/http/incoming_message.cc:127-133 | with the wrap-around and zero sentinels, the insertion at the end of a segment is the one specified, and the field is kept |
| `Query.AttemptsBySegments` | src/http/incoming_message.cc:124-147 | for every query, the scanner attempts exactly what its segments say one by one: a key is taken from the segment or kept, the value is what follows the first "=", or all of the query so far but its first character |
| `Query.HasSegments` | src/http/incoming_message.cc:124-133 | every query is a list of such segments |
| `Query.Url.ParseParams` | src/http/incoming_message.cc:109-150 | for every query, the first value of each attempted insertion wins; a second scan does nothing |
| `Query.AttemptsArePairs` | src/http/incoming_message.cc:124-147 | apart from retries of a key already attempted, the insertions are exactly the pairs of the query if and only if it is clean, and never fewer |
| `Query.RetriesAgree` | src/http/incoming_message.cc:124-147 | a retry finds its key in the map, so retries change no lookup |
| `Query.CleanIsMeant` | src/http/incoming_message.cc:109-150 | the map is that of the insertions without the retries, and that of the pairs if the query is clean |
| `Query.ParamsAreMeant` | src/http/incoming_message.cc:109-150 | the map is the one meant if and only if every insertion that is no pair of its segment comes after its key was seen or anticipates the value its key would get |
| `Query.PrintedPairs` | src/http/incoming_message.cc:124-147 | a printed list is clean, has its own pairs, and makes the scanner attempt exactly them, whatever field it held |
| `Query.RoundTrip` | src/http/incoming_message.cc:109-150 | scanning the printed form of any list of non-empty keys and values attempts exactly the list |
| `Query.FirstWinsLookup` | src/http/incoming_message.cc:129 | the first value of a key is the one kept |
| `Query.FirstWinsKeys` | src/http/incoming_message.cc:129 | the keys kept are those of the list |
| `Query.StaleField` | src/http/incoming_message.cc:127-137 | `a=&b` yields the value `=&b` for the key `a` |
| `Query.Retry` | src/http/incoming_message.cc:127-147 | `a=1&b` is clean, and yet the key `a` is attempted again with the value `=1&b` |
| `Channel.NextKeeps` | include/libnodecc/util/async_channel.h:21-67 | every step of every thread keeps: delivered followed by queued is sent, and a queue with values has a pending signal, a wakeup in progress, a producer before its signal, or an unfinished init |
| `Channel.RunKeeps` | include/libnodecc/util/async_channel.h:21-67 | so does every interleaving |
| `Channel.RunSends` | include/libnodecc/channel.h:15-29 | over every interleaving, what has been sent are the values of the sends, in the order in which they take the lock |
| `Channel.StepsShrink` | include/libnodecc/util/async_channel.h:21-67 | every step except a new send brings the end nearer |
| `Channel.NotStuck` | include/libnodecc/util/async_channel.h:21-67 | until everything is quiet some such step is possible |
| `Channel.AsyncChannel.Init` | include/libnodecc/util/async_channel.h:46-67 | a second initialisation throws and changes nothing |
| `Channel.AsyncChannel.Receive` | include/libnodecc/util/async_channel.h:57-63 | the handler takes the whole queue and emits it unless it is empty |
| `Channel.AsyncChannel.Interleave` | include/libnodecc/util/async_channel.h:21-67 | whatever the order of the threads' steps on the locked queue, `_async` and the signal, what was emitted followed by the queue are the values given to the sends, and the queue is empty once nothing is going on |
| `Channel.Delivered` | include/libnodecc/util/async_channel.h:21-67 | once producers stop, every run ends after a bounded number of steps, and where it ends nothing is queued and the receive events hold all that is recorded as sent |
| `Channel.AllDelivered` | include/libnodecc/util/async_channel.h:21-67 | from the start, over every interleaving of sends with everything else and every continuation without sends: a bounded number of steps, after which the receive events hold exactly the values sent, in order |

## Left out

- The 2048 literals of the CRC tables: the tables are defined by the recurrence that generates them.
- Addresses are unbounded numbers: an address range that wraps around is not modelled.
- The encoder in the disabled preprocessor branch, and the De Bruijn and bit-scan forms of `digits2`.
- MutableBuffer.Buffer.AppendNumber: floating-point logarithms are not modelled; what their quotient is truncated to is an argument, at most the length of the notation. The bytes that an odd base without digits writes behind the contents are not part of them.
- Failing allocations and capacities near 2^64.
- MutableBuffer.Buffer.Append: appending a range of the buffer's own storage is not modelled; neither are the overloads that take a position, moved-from growable buffers, and slices that share their storage.
- Constructing a buffer as a copy of foreign memory, which is a weak buffer, its copy and a move assignment in a row.
- Buffers with a deleter of their own, literal strings and strings: they differ in how the memory is freed, not in how it is counted. A handle is one value with three parts, so `Swap` exchanges them in one step.
- Buffers.Buffer.AssignView: a weak handle may outlive the memory it shows; nothing is promised about its bytes.
- Emitter: registration numbers stand for pointers, so an allocator that hands a freed handler's address out again is not modelled; destroying a handler's closure runs no user code; the number of nested emits stays below 2^63; `has_listener` and `listener_count`.
- Emitter.Emitter.Emit: a callback is a finite tree of actions, so an emit that never ends because handlers keep registering new ones is not modelled; exceptions thrown by handlers are not modelled either.
- Stream.UvStream.constructor: the low mark is below the high mark and both stay fixed; the handle is open from the start, as in the constructor of the TCP socket.
- Stream: pausing and resuming, the receive buffer, objects owned by a responsible object (used nowhere in the repository), assigning a shared pointer over a non-empty one, and `shared_from_this`; the last two do not adjust the count. Reactions to events are allowed even after all listeners have been removed, which only adds behaviours. A result of the immediate write that exceeds the total is taken to mean that all was sent.
- Stream.UvStream.OnEof: if libuv refuses the shutdown request, the error leaves the callback and is not followed further.
- Stream.UvStream.Write: the watermark counts the whole write even if part of it was sent at once, as in the source; it does not count the bytes actually queued.
- The references a queued request keeps on its buffers: a request holds its bytes as values.
- The UDP socket's write path, whose skip loop is the same as the one modelled.
- `compile_headers` is a parameter of the HTTP model; header names are plain strings, without hashing and case.
- The URL parser in front of the query scanner, percent decoding, and the parser of incoming messages.
- `async_channel::destroy`, the error event, and the order of memory operations: single accesses are atomic steps.
- libuv, the DNS client, timers, file access, loops, interface enumeration, dates, status codes, hashing and template helpers.
