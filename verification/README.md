# Verified models of the vendored AES-GCM stack and of three parts of the desktop

The project models code of the repository in Dafny and proves what the code is for. Every fast form is compared with
a short definition taken from the standard it implements, and every stateful part with a model a user would recognise.

**AES-GCM** (`external/filezilla/nettle`). Blocks are bit strings, leftmost bit first, as in NIST SP 800-38D; the field
product is the standard's algorithm of section 6.3 (`Field.Mul`, `Bytes.Dot`). Against it are proved, bottom up: the
word form of one step of multiplication by x in both byte orders, the literal `shift_table` constants, the four- and
eight-bit shifts, the key table, the three versions of `gcm_gf_mul`, GHASH, counter mode on both of its paths, word-wise
`memxor` and `memxor3`, and the operations on a message context. The block cipher is any function on blocks until
`AesGcm`, where it is AES, whose T-table code and key expansion are proved equal to FIPS 197 from the literal tables up.
That in turn is fixed by statements that do not name it: the byte equations of the key expansion, how each round key
enters, and the example of appendix C.1, round by round (`AesVector`); GCM by what every byte of the ciphertext and the
tag is (`GcmBytes`).
The last results are about runs: the calls for a whole message yield the ciphertext and tag of GCM-AE (section 7.1), for
any way of cutting the message that passes the code's own assertions; the calls of the receiver are GCM-AD (section 7.2);
and what one side seals in memory the other opens, whichever way each of them cuts it.

**Merkle-Damgard macros** (`macros.h`): buffering and padding, for any block size and compression function.

**Find bar** (`term.hpp`): the UTF-8 query with its codepoint caret refines a list editor over every run of events;
the layout of the bar, its hit tests, and where the caret is drawn.

**Windows** (`vtm.hpp`): the linked list of windows with iterators kept in the windows; what its operations do to the
order, what is seen on the screen, and the search for the next window to focus.

**Sessions** (`vtm-tile.cpp`): the session record printer and parser, and the log monitor as a state machine over the
steps of its threads.

## How to read it

`Field`, `Bytes`, `AesSpec`, `GcmSpec`, `WindowOrder` and the first halves of `FindBar` and `LogMonitor` hold the
definitions the code is measured by. Parameters that stand for a choice made when the C code is compiled are explicit:
`Endian` for `WORDS_BIGENDIAN`, `FillForm` for the three versions of `gcm_fill`; every result holds for all of them.
A pointer is an area of memory, an offset into it, and the address of the area, so that alignment is a case distinction
(`MemXor.Ptr`). In counter mode and above it two pointers are into different areas or equal. A 64-bit word of the GHASH code is its bits, most
significant first; a word of `memxor` is its bytes in the order of memory; a word of the AES code is its bytes, least
significant first, and lemmas on `bv32` show that the C operators do to words what is done to those bytes here. Ghost
parameters name the values a caller already knows, such as the hash key a table belongs to.

Some results are worth pointing out:

- `GhashMul.GfMul0`, the bitwise version, multiplies by the bits of H rather than of X. It is right because the product
  is commutative (`Field.MulCommutes`), which is proved from the definition.
- `memxor` and `memxor3` read no word that is not inside the operand: the over-read that a remark in the source suspects
  does not happen. The assertions of the source appear as contracts (the number of words is positive, then odd) and as
  an assertion (one word is left). `memxor3` is right when a source overlaps the start of the destination, which is what
  it goes in descending order for.
- `FindBar.BoundScroll`: the correction for the right edge in the drawing code is never applied.
- `SessionRecord.SessionRoundTrip`: a record does not always come back. A field is lost just when a value before it is
  taken for its key, which `Clashes` describes exactly; `UserHidesCwd` gives an instance.
- `LogMonitor.StuckHappens`: the wait at the end of input can be one that never ends, as in a run in which everything is
  sent, the input ends, and the stream goes down before the first reply. `StuckExactly` gives the two ways it comes to
  that: the stream goes down during the wait with commands or replies on it, or the input ends after the stream has gone
  down with replies missing and before the connect loop has noticed. A stream that goes down with nothing on it, and
  nothing sent since, sticks nothing.
- `WindowOrder.SearchEnds`: the loop of the minimize handler ends, and within one turn, just when the stack holds the
  window itself or a window that is visible in the viewport. The minimized window is in the stack, so it does end.

## Model

| member | source | states |
|---|---|---|
| `Field.MulCommutes` | external/filezilla/nettle/gcm.c:73-96 | the field product is commutative, which the bitwise version of the multiplication relies on |
| `Field.MulConcat` | external/filezilla/nettle/gcm.c:214-229 | Horner's rule: a product by a concatenation of bit strings, for every cut |
| `Field.MulLinear` | external/filezilla/nettle/gcm.c:256-266 | the product is linear in the element multiplied |
| `Field.MulAdds` | external/filezilla/nettle/gcm.c:260-265 | the product is additive in the multiplier, so entries without a common bit can be added |
| `Field.MulxNAt` | external/filezilla/nettle/gcm.c:197-212 | closed form of up to eight steps of multiplication by x, bit by bit |
| `Bytes.DotCommutes` | external/filezilla/nettle/gcm.c:73-96 | the product of blocks is commutative |
| `Bytes.DotAdds` | external/filezilla/nettle/gcm.c:296-310 | the product of blocks distributes over exclusive or |
| `Bytes.FromBitsRoundTrip` | external/filezilla/nettle/gcm.c:83-94 | blocks and bit strings stand for each other, leftmost bit first |
| `GhashWords.MulxGhashIsMulx` | external/filezilla/nettle/block-internal.h:141-190 | in either byte order, the word operations are multiplication by x in the bit order of the standard |
| `GhashWords.Block16MulxGhash` | external/filezilla/nettle/block-internal.h:141-190 | block16_mulx_ghash multiplies the block in memory by x |
| `GhashWords.ByteConstantsAreHex` | external/filezilla/nettle/block-internal.h:180-190 | the constants given by their bits are the literals 0xE1, 1 and 0x80 |
| `GhashWords.MasksAreHex` | external/filezilla/nettle/block-internal.h:98-100 | and the two masks of RSHIFT_ALIEN_UINT64 |
| `GhashWords.Block16Xor` | external/filezilla/nettle/block-internal.h:45-60 | block16_xor and block16_xor3 add blocks |
| `ShiftTable.Entry8Linear` | external/filezilla/nettle/gcm.c:161-195 | each of the 256 literals of shift_table is the sum of R shifted by the set bits of its index |
| `ShiftTable.Table8Reduces` | external/filezilla/nettle/gcm.c:161-195 | each literal is the reduction of the eight bits a shift drops |
| `ShiftTable.Table4Reduces` | external/filezilla/nettle/gcm.c:106-110 | the same for the sixteen literals of the small table |
| `GhashShift.ShiftBytesAreHex` | external/filezilla/nettle/gcm.c:197-212 | the byte masks given by their bits are 0xff, 0x0f and 0xf0 |
| `GhashShift.ShiftMasksAreHex` | external/filezilla/nettle/gcm.c:124-126 | the masks of RSHIFT_WORD_4 |
| `GhashShift.Shift8IsMulxN` | external/filezilla/nettle/gcm.c:197-212 | gcm_gf_shift_8 with a shift table is eight multiplications by x, in either byte order |
| `GhashShift.Shift4IsMulxN` | external/filezilla/nettle/gcm.c:112-132 | gcm_gf_shift_4 is four |
| `GhashShift.GfShift8` | external/filezilla/nettle/gcm.c:197-212 | the same, as a contract of the operation |
| `GhashShift.GfShift4` | external/filezilla/nettle/gcm.c:112-132 | the same, as a contract of the operation |
| `GhashMul.InitKey` | external/filezilla/nettle/gcm.c:248-267 | from its zero entry and H in the middle the table becomes j times H for every index j |
| `GhashMul.InitPowers` | external/filezilla/nettle/gcm.c:258-259 | the first loop puts the right entry at every power of two, if halving the index is what the step does |
| `GhashMul.InitSums` | external/filezilla/nettle/gcm.c:260-265 | the second loop completes the table, if adding entries adds indices without a common bit |
| `GhashMul.IndexBitsAdd` | external/filezilla/nettle/gcm.c:263-264 | adding an index below a power of two to that power adds the bit strings |
| `GhashMul.EntryHalf` | external/filezilla/nettle/gcm.c:258-259 | half the index is the entry times x |
| `GhashMul.TableEntry` | external/filezilla/nettle/gcm.c:220-228 | the entry a byte selects is the product of H with the bits of the byte |
| `GhashMul.HornerStep` | external/filezilla/nettle/gcm.c:222-228 | a shift and one more entry extend the product by the bits in front |
| `GhashMul.GfMul8` | external/filezilla/nettle/gcm.c:214-229 | the 8-bit table multiplication returns the product X . H, for every X and H |
| `GhashMul.GfMul4` | external/filezilla/nettle/gcm.c:134-152 | so does the 4-bit one |
| `GhashMul.GfMul0` | external/filezilla/nettle/gcm.c:73-96 | so does the bitwise one |
| `GhashMul.GfMulByte` | external/filezilla/nettle/gcm.c:85-93 | its inner loop keeps: the sum so far plus the bits to come times the current V |
| `Counter.CarryAddsOne` | external/filezilla/nettle/macros.h:158-166 | the byte-carry loop adds one modulo 256 to the number of bytes |
| `Counter.Increment` | external/filezilla/nettle/macros.h:158-166 | INCREMENT changes exactly those bytes, and does that to them |
| `Counter.CarryIsInc32` | external/filezilla/nettle/gcm.c:240-241 | INC32 is inc32 of section 6.2 of SP 800-38D |
| `Counter.IterInc32` | external/filezilla/nettle/gcm.c:368-424 | inc32 applied n times adds n to the last 32 bits modulo 2^32 and leaves the first 12 bytes |
| `Counter.FillBlock` | external/filezilla/nettle/gcm.c:371-421 | a step of each of the three loops stores the same block |
| `Counter.GcmFill` | external/filezilla/nettle/gcm.c:368-424 | the three forms of gcm_fill write the blocks inc32^k of the counter, nothing else, and leave the counter behind them |
| `MemXor.MergeMem` | external/filezilla/nettle/memxor-internal.h:47-53 | MERGE of two adjacent words is the word that begins between them |
| `MemXor.ReadPartial` | external/filezilla/nettle/memxor-internal.h:55-71 | READ_PARTIAL reads the bytes into the low end of a word, in either byte order |
| `MemXor.CommonAlignment` | external/filezilla/nettle/memxor3.c:49-65 | the aligned loop exclusive-ors the operands |
| `MemXor.MemXorCommonAlignment` | external/filezilla/nettle/memxor.c:49-67 | so does memxor's, with the destination as an operand |
| `MemXor.DifferentAlignmentB` | external/filezilla/nettle/memxor3.c:67-115 | so does the loop for one unaligned operand; one word is left at its end |
| `MemXor.MemXorDifferentAlignment` | external/filezilla/nettle/memxor.c:69-119 | so does memxor's loop for an unaligned source: the number of words is odd before it and one word is left at its end |
| `MemXor.XorTopWord` | external/filezilla/nettle/memxor.c:92-102 | before the loop an odd number of words is left |
| `MemXor.DifferentAlignmentAB` | external/filezilla/nettle/memxor3.c:117-171 | so does the loop for two operands with the same misalignment |
| `MemXor.DifferentAlignmentAll` | external/filezilla/nettle/memxor3.c:173-229 | so does the loop for three different alignments |
| `MemXor.MemXor3` | external/filezilla/nettle/memxor3.c:231-292 | memxor3 leaves the exclusive or of the operands, for every length and every alignment, with sources elsewhere, in place, or overlapping the start of the destination, and changes nothing else |
| `MemXor.MemXor` | external/filezilla/nettle/memxor.c:124-161 | memxor leaves the exclusive or of the destination and the source in the destination, for every length and alignment, and changes nothing else; it does so, too, with a source that overlaps the start of the destination, which it does not promise |
| `Ctr16.EcbBlocks` | external/filezilla/nettle/ctr16.c:59-62 | counter blocks through the cipher are the key stream |
| `Ctr16.StreamConcat` | external/filezilla/nettle/ctr16.c:87-95 | key stream made in batches is the key stream made at once |
| `Ctr16.GctrTwice` | external/filezilla/nettle/ctr16.c:49-106 | counter mode is its own inverse |
| `Ctr16.GctrConcat` | external/filezilla/nettle/gcm.c:426-467 | a message cut at a block boundary, with the counter carried over, gives the same output |
| `Ctr16.KeyStream` | external/filezilla/nettle/ctr16.c:59-62 | fill and cipher leave the key stream in the buffer |
| `Ctr16.CryptDirect` | external/filezilla/nettle/ctr16.c:55-77 | the path for an aligned, separate destination, with its left-over block |
| `Ctr16.CryptBatches` | external/filezilla/nettle/ctr16.c:87-104 | the loop over batches of 32 blocks, with the jump out of a batch of which only a part is used |
| `Ctr16.CryptBuffered` | external/filezilla/nettle/ctr16.c:78-105 | the path for any other destination, through a buffer of at most 32 blocks |
| `Ctr16.CtrCrypt16` | external/filezilla/nettle/ctr16.c:49-106 | both paths leave GCTR of the source (section 6.5 of SP 800-38D) and a counter moved on by the length in blocks, rounded up |
| `Ghash.HashDataConcat` | external/filezilla/nettle/gcm.c:295-310 | hashing a and then b is hashing a + b if a is a whole number of blocks |
| `Ghash.XorFrontPads` | external/filezilla/nettle/gcm.c:305-309 | exclusive or of fewer bytes than a block is exclusive or of the zero-padded block |
| `Ghash.GfMul` | external/filezilla/nettle/gcm.c:214-229 | the multiplication by the key of a table, with the literal shift table |
| `Ghash.GcmHash` | external/filezilla/nettle/gcm.c:295-310 | _nettle_gcm_hash_c is GHASH of the zero-padded data, from any state |
| `GcmSpec.AdOfAe` | external/filezilla/nettle/gcm.c:426-450 | authenticated decryption of what authenticated encryption yields is the plaintext |
| `GcmSpec.SizeField` | external/filezilla/nettle/gcm.c:313-327 | a 64-bit size, even one that has wrapped around, times eight has the low 64 bits of the length in bits |
| `GcmSpec.SetIvJ0` | external/filezilla/nettle/gcm.c:329-354 | gcm_set_iv computes J0 of section 7.1, for 96-bit and for other IVs |
| `GcmSpec.UpdateHolds` | external/filezilla/nettle/gcm.c:356-366 | gcm_update adds to the associated data, if its assertions pass |
| `GcmSpec.CryptedHolds` | external/filezilla/nettle/gcm.c:426-450 | encryption and decryption add to the ciphertext, the counter and the size, if their assertion passes |
| `GcmSpec.DigestIsTag` | external/filezilla/nettle/gcm.c:452-467 | gcm_digest yields the truncated tag of everything that has gone in |
| `GcmSpec.PassesWhole` | external/filezilla/nettle/gcm.c:360-361 | a guard that asks for a size that is a multiple of 16 passes just when every piece but the last is a whole number of blocks |
| `GcmSpec.UpdatesPass` | external/filezilla/nettle/gcm.c:360-361 | so it is with the assertions of gcm_update |
| `GcmSpec.EncryptsPass` | external/filezilla/nettle/gcm.c:431-431 | with the assertion of gcm_encrypt |
| `GcmSpec.DecryptsPass` | external/filezilla/nettle/gcm.c:444-444 | and with that of gcm_decrypt |
| `GcmSpec.SealIsGcmAe` | external/filezilla/nettle/gcm.c:275-467 | a run of the operations, with any pieces that pass the assertions, yields the ciphertext and the tag of GCM-AE |
| `GcmSpec.OpenIsGcmAd` | external/filezilla/nettle/gcm.c:275-467 | a receiving run and a comparison of tags are GCM-AD of section 7.2 |
| `GcmSpec.OpenOfSeal` | external/filezilla/nettle/gcm.c:426-467 | decryption restores the plaintext and the tag, for any two ways of cutting the message |
| `GcmBytes.BigEndianDigit` | external/filezilla/nettle/gcm.c:313-327 | a number written big-endian has its digits to the base 256 as bytes, the most significant first |
| `GcmBytes.SealedByte` | external/filezilla/nettle/gcm.c:334-341 | under a 96-bit IV byte i of the ciphertext is byte i of the text, exclusive or byte i % 16 of the enciphered IV and counter i / 16 + 2 (modulo 2^32) |
| `GcmBytes.SealedByteOther` | external/filezilla/nettle/gcm.c:342-354 | under any other IV the counters go on from the hash of the padded IV and its length |
| `GcmBytes.TagSum` | external/filezilla/nettle/gcm.c:452-467 | under a 96-bit IV the tag is the hash of padded associated data, padded ciphertext and the two lengths in bits, in that order, exclusive or the enciphered IV and counter 1, cut off at the end |
| `GcmBytes.GhashIsPolynomial` | external/filezilla/nettle/gcm.c:295-310 | the hash is the polynomial whose coefficients are the blocks, the last one times H, the one before times H squared, and so on |
| `Gcm.SetKey` | external/filezilla/nettle/gcm.c:275-288 | gcm_set_key makes the table of the multiples of the encrypted zero block |
| `Gcm.HashSizes` | external/filezilla/nettle/gcm.c:313-327 | gcm_hash_sizes hashes the block of the two lengths |
| `Gcm.GcmCtx.SetIv` | external/filezilla/nettle/gcm.c:329-354 | the context after gcm_set_iv is the one the run results speak of; what that makes of the text and the tag is above, under `GcmBytes` |
| `Gcm.GcmCtx.Update` | external/filezilla/nettle/gcm.c:356-366 | and after gcm_update |
| `Gcm.GcmCtx.Encrypt` | external/filezilla/nettle/gcm.c:426-437 | and after gcm_encrypt, which writes the ciphertext and nothing else, in place or not |
| `Gcm.GcmCtx.Decrypt` | external/filezilla/nettle/gcm.c:439-450 | and after gcm_decrypt, which hashes the source before it may overwrite it |
| `Gcm.GcmCtx.Digest` | external/filezilla/nettle/gcm.c:452-467 | gcm_digest writes the tag |
| `AesTable.Table0Is` | external/filezilla/nettle/aes-encrypt-table.c:88-154 | every literal of the first T-table is the column (2s, s, s, 3s) of the S-box value s |
| `AesTable.Table1Is` | external/filezilla/nettle/aes-encrypt-table.c:156-221 | and of the second that column rotated by a byte |
| `AesTable.Table2Is` | external/filezilla/nettle/aes-encrypt-table.c:221-286 | of the third, by two |
| `AesTable.Table3Is` | external/filezilla/nettle/aes-encrypt-table.c:286-351 | of the fourth, by three |
| `AesTable.SboxIsAffineOfInverse` | external/filezilla/nettle/aes-encrypt-table.c:53-87 | every literal of the S-box is the affine image of the multiplicative inverse of its index (section 5.1.1 of FIPS 197) |
| `Aes.LeBytesXor` | external/filezilla/nettle/aes-internal.h:87-91 | exclusive or of 32-bit words is that of their bytes |
| `Aes.LeBytesWord` | external/filezilla/nettle/aes-internal.h:82-85 | bytes shifted into place and combined are the bytes of the word |
| `Aes.LeBytesRotated` | external/filezilla/nettle/aes-set-key-internal.c:65-66 | rotating a little-endian word left by 24 bits is RotWord |
| `Aes.EncryptTablesAre` | external/filezilla/nettle/aes-encrypt-table.c:51-353 | the literal tables are what the cipher needs |
| `Aes.RoundIsMixed` | external/filezilla/nettle/aes-internal.h:87-91 | AES_ROUND is MixColumn of the S-box values, exclusive or the subkey |
| `Aes.ShiftedColumns` | external/filezilla/nettle/aes-encrypt-internal.c:75-78 | taking byte r from column c + r is ShiftRows |
| `Aes.RoundIs` | external/filezilla/nettle/aes-encrypt-internal.c:73-87 | four AES_ROUND are a round of section 5.1 of FIPS 197 |
| `Aes.FinalRoundIs` | external/filezilla/nettle/aes-encrypt-internal.c:89-94 | four AES_FINAL_ROUND are the last round |
| `Aes.EncryptBlock` | external/filezilla/nettle/aes-encrypt-internal.c:59-100 | a block goes through the Cipher of FIPS 197, for any number of rounds and any subkeys; which subkeys enter where is fixed below |
| `Aes.AesEncrypt` | external/filezilla/nettle/aes-encrypt-internal.c:53-101 | every block does, in place or not, and nothing else changes |
| `AesSpec.RoundKeyEnters` | external/filezilla/nettle/aes-encrypt-internal.c:73-78 | adding to word c of the key of round n adds just that to column c of the state after that round, and changes no round before it |
| `AesSpec.LastKeyEnters` | external/filezilla/nettle/aes-encrypt-internal.c:89-94 | the last round key enters the output in the same way |
| `AesVector.ExampleC1` | external/filezilla/nettle/aes-encrypt-internal.c:53-101 | for the key and the plaintext of appendix C.1 of FIPS 197 the key expansion and the cipher yield the ciphertext given there |
| `AesKey.RconIs` | external/filezilla/nettle/aes-set-key-internal.c:49-51 | the literal round constants are the powers of x |
| `AesKey.NextTemp` | external/filezilla/nettle/aes-set-key-internal.c:64-69 | the temporary word, byte by byte (rotated, through the S-box and with the round constant at a multiple of Nk, through the S-box half-way for keys of more than six words, else the word before), and a pointer into the constants that is always the number of the last multiple of Nk |
| `AesKey.SetKey` | external/filezilla/nettle/aes-set-key-internal.c:45-73 | the subkeys are the key schedule of section 5.2 of FIPS 197, for every key length for which the ten constants suffice; its equations hold byte by byte of the array that is filled (`IsExpansion`) |
| `AesKey.ScheduleByte` | external/filezilla/nettle/aes-set-key-internal.c:60-72 | the equations of section 5.2 of FIPS 197 for every byte of the key schedule, the case of keys of more than six words included |
| `AesGcm.SetEncryptKey` | external/filezilla/nettle/aes-set-key-internal.c:45-73 | they do for 128, 192 and 256 bits, in the same two ways |
| `AesGcm.AesInPlace` | external/filezilla/nettle/aes-encrypt.c:66-94 | AES is the block function that the mode is given |
| `AesGcm.SealMessage` | external/filezilla/nettle/gcm.c:329-467 | the calls for one message leave the ciphertext and the tag of GCM-AE in memory, in place or not, and nothing else |
| `AesGcm.SealWithIv96` | external/filezilla/nettle/gcm.c:329-467 | with a 96-bit IV the calls leave in memory, byte by byte, the text exclusive or the enciphered IV and counters from 2 on, and the hash of what is sent exclusive or the enciphered IV and counter 1 |
| `AesGcm.OpenMessage` | external/filezilla/nettle/gcm.c:329-467 | the calls of the receiver leave a text and a digest in memory; to accept the text just when the digest is the tag received is GCM-AD of section 7.2 |
| `AesGcm.SealThenOpen` | external/filezilla/nettle/gcm.c:426-467 | one after the other they leave the plaintext in memory again, and the two digests are equal |
| `GcmPieces.UpdatePieces` | external/filezilla/nettle/gcm.c:356-366 | calls of gcm_update for pieces of associated data, each in an area of its own, take the context through the states of the run |
| `GcmPieces.EncryptPieces` | external/filezilla/nettle/gcm.c:426-437 | so do calls of gcm_encrypt for pieces of text one behind the other, and each puts its output into its place, in place or not |
| `GcmPieces.DecryptPieces` | external/filezilla/nettle/gcm.c:439-450 | and calls of gcm_decrypt |
| `GcmPieces.SealPieces` | external/filezilla/nettle/gcm.c:329-467 | for any pieces that the assertions allow, the calls leave the ciphertext and the tag of GCM-AE for the whole in memory, and nothing else |
| `GcmPieces.OpenPieces` | external/filezilla/nettle/gcm.c:329-467 | and those of the receiver leave a text and a digest that decide GCM-AD for the whole |
| `GcmPieces.CutUpIs` | external/filezilla/nettle/gcm.c:426-450 | data cut at given lengths are pieces of those lengths that make up the data |
| `GcmPieces.SealThenOpen` | external/filezilla/nettle/gcm.c:426-467 | sealing and then opening, each side cutting associated data and text in its own way, leaves the plaintext in memory again, and the two digests are equal |
| `MerkleDamgard.FoldConcat` | external/filezilla/nettle/macros.h:181-216 | a message in two parts is compressed in the same blocks as at once |
| `MerkleDamgard.FoldSteps` | external/filezilla/nettle/macros.h:181-216 | one more block is one more compression, and less than a block is none |
| `MerkleDamgard.MdCtx.Update` | external/filezilla/nettle/macros.h:181-216 | MD_UPDATE takes a context that holds m to one that holds m and the data: chaining value, tail in the buffer, index, count |
| `MerkleDamgard.ZerosAreFewest` | external/filezilla/nettle/macros.h:221-243 | the zeros MD_PAD writes are the fewest that leave room for the length field at the end of a block |
| `MerkleDamgard.MdCtx.Pad` | external/filezilla/nettle/macros.h:221-243 | MD_PAD appends 0x80 and those zeros, and leaves the last bytes of the block free |
| `MerkleDamgard.PaddedHash` | external/filezilla/nettle/macros.h:218-243 | with the length in those bytes one more compression gives the hash of the whole padded message |
| `Utf8.EncodeInjective` | src/netxs/apps/term.hpp:539-580 | no two texts have the same bytes |
| `Utf8.DecodeEncode` | src/netxs/apps/term.hpp:539-580 | a scalar value is determined by its UTF-8 sequence |
| `Utf8.EncodingExamples` | src/netxs/apps/term.hpp:539-580 | the encoding of a character of each length |
| `Utf8.CharacterAt` | src/netxs/apps/term.hpp:544-549 | at the offset of a character there is its sequence, and no continuation byte follows |
| `Utf8.MasksAreRanges` | src/netxs/apps/term.hpp:575-580 | the tests of the high bits of a byte are ranges of its value |
| `Utf8.ByteOfCp` | src/netxs/apps/term.hpp:561-573 | byte_of_cp is the length of the encoding of the characters before the index, clamped to the text |
| `Utf8.CpLen` | src/netxs/apps/term.hpp:575-580 | cp_len is the number of characters |
| `Utf8.SliceCp` | src/netxs/apps/term.hpp:538-559 | slice_cp is the encoding of a slice of the characters |
| `Utf8.Filter` | src/netxs/apps/term.hpp:1029-1043 | the paste filter keeps every character but the control characters, and splits none |
| `Utf8.KeptIs` | src/netxs/apps/term.hpp:1029-1043 | the control characters are those below 32 and the one that is 127; the others stay in their order |
| `FindLayout.PartsTileTheBar` | src/netxs/apps/term.hpp:471-535 | every column inside the frame belongs to exactly one part; parts go in the order of their importance |
| `FindLayout.LayoutIs` | src/netxs/apps/term.hpp:471-535 | the columns of the parts, and the widths from which they are shown, in numbers |
| `FindLayout.WiderShowsMore` | src/netxs/apps/term.hpp:471-535 | a wider bar shows whatever a narrower one does |
| `FindLayout.HoverIsClick` | src/netxs/apps/term.hpp:844-930 | the hover and click tests agree on every column although their orders differ |
| `FindBar.SkipBack` | src/netxs/apps/term.hpp:1081-1088 | the start of the longest run of such characters before a place |
| `FindBar.SkipForward` | src/netxs/apps/term.hpp:1089-1096 | the end of the longest run from a place on |
| `FindBar.PrevWordIs` | src/netxs/apps/term.hpp:1081-1088 | back over white space and then over a whole word |
| `FindBar.SpaceIs` | src/netxs/apps/term.hpp:1073-1080 | white space is the two characters 32 and 9 |
| `FindBar.EraseIs` | src/netxs/apps/term.hpp:1097-1109 | erasing keeps the other characters in their order and the caret at its neighbours |
| `FindBar.InsertIs` | src/netxs/apps/term.hpp:1334-1336 | inserting puts the text before the character at the caret, which goes behind it |
| `FindBar.FindState.InsertBytes` | src/netxs/apps/term.hpp:1334-1336 | inserting bytes at the caret inserts their characters |
| `FindBar.FindState.EraseCpRange` | src/netxs/apps/term.hpp:1097-1109 | erase_cp_range erases the characters of the range that are in the text and moves the caret with its neighbours; an empty or reversed range changes nothing |
| `FindBar.FindState.PrevWordCp` | src/netxs/apps/term.hpp:1081-1088 | prev_word_cp on the bytes is the word motion on the characters |
| `FindBar.FindState.NextWordCp` | src/netxs/apps/term.hpp:1089-1096 | and so is next_word_cp |
| `FindBar.FindState.KeyPress` | src/netxs/apps/term.hpp:1061-1364 | every key does to the bytes what it does to the list of characters, and that is said of every key with every modifier: where it moves the caret, what it erases or inserts, which request it sends (`KeyMoves`, `KeyErases`, `KeyInserts`, `KeySearches`, `KeyReports`) |
| `FindBar.MoveKeys` | src/netxs/apps/term.hpp:1148-1236 | where the keys that move the caret put it: Home and End, the arrows, the letters with Ctrl, the word motions with Alt |
| `FindBar.EraseKeys` | src/netxs/apps/term.hpp:1114-1220 | what Backspace, Delete and the letters with Ctrl and Alt erase |
| `FindBar.InsertKeys` | src/netxs/apps/term.hpp:1282-1340 | what Ctrl+Y and typed text insert, and that text that begins with a control character is not inserted |
| `FindBar.SearchKeys` | src/netxs/apps/term.hpp:1237-1281 | which direction Enter, Shift+Enter, the arrows and Ctrl+N and Ctrl+P ask for, that Tab turns the direction, and which keys do nothing |
| `FindBar.OtherSends` | src/netxs/apps/term.hpp:1349-1358 | every other key sends the text just when it has become another one |
| `FindBar.FindState.KeyPaste` | src/netxs/apps/term.hpp:1024-1060 | so does a paste |
| `FindBar.FindState.LeftClick` | src/netxs/apps/term.hpp:827-905 | so does a click; what that is, by column, is `ClickParts` |
| `FindBar.ClickParts` | src/netxs/apps/term.hpp:827-905 | what a click on each column does to text, caret and direction, what it sends, and where it closes the bar, in numbers of columns |
| `FindBar.ClickBeside` | src/netxs/apps/term.hpp:827-905 | a click on another row, or on a bar that is too narrow, does nothing |
| `FindBar.FindState.Render` | src/netxs/apps/term.hpp:694-718 | drawing scrolls as little as shows the caret, and draws the characters that fit |
| `FindBar.RenderedIn` | src/netxs/apps/term.hpp:694-718 | how many cells there are for text, that the caret is in one of them, that the text is moved no further than that takes, and which characters are drawn |
| `FindBar.BoundScroll` | src/netxs/apps/term.hpp:700-716 | for any caret and scroll position, in range or not, the clamps of the drawing code amount to that; the guard of the last of them, for the right edge, is never true |
| `FindBar.Step` | src/netxs/apps/term.hpp:995-1364 | every event leaves the caret between 0 and the length of the text |
| `FindBar.FindState.constructor` | src/netxs/apps/term.hpp:118-128 | a new bar has an empty query, with the caret and the scroll position at its start, and searches downward |
| `FindBar.Handle` | src/netxs/apps/term.hpp:694-1364 | if the bytes are the encoding of the list of characters after a run of events, with the caret between two of them, the next event keeps it so |
| `FindBar.HandleAll` | src/netxs/apps/term.hpp:694-1364 | so it is from a new bar on, over every run of events |
| `FindBar.ClickOnCaret` | src/netxs/apps/term.hpp:700-748 | a drawn caret is inside the field, and a click on it moves nothing |
| `FindBar.ClickOnCharacter` | src/netxs/apps/term.hpp:888-902 | a click on a visible character puts the caret before it |
| `FindBar.BackspacesUndo` | src/netxs/apps/term.hpp:1114-1129 | text and as many backspaces as it has characters leave the query as it was |
| `FindBar.SameBytesSameText` | src/netxs/apps/term.hpp:118-128 | the bytes of the query determine the text |
| `WindowOrder.RunPermutes` | src/vtm.hpp:903-934 | over any run of expose, bubble, next and prev the stack holds the same windows |
| `WindowOrder.NextPrev` | src/vtm.hpp:1566-1591 | next and prev undo each other |
| `WindowOrder.BubbleIs` | src/vtm.hpp:919-934 | bubble moves a window up past windows it does not overlap only, and as far as one that it does or the top |
| `WindowOrder.BubbleKeepsTop` | src/vtm.hpp:919-934 | bubble changes the window seen at no point, with the three layers of the z-order |
| `WindowOrder.ExposeShows` | src/vtm.hpp:903-918 | expose shows the window wherever no window of a higher layer covers it |
| `WindowOrder.PaintedFilter` | src/vtm.hpp:1784-1805 | splitting the stack into layers keeps the order of the windows at a point |
| `WindowOrder.SearchEnds` | src/vtm.hpp:703-720 | the search for the next focus ends within one turn just when the stack holds the window itself or a good one |
| `WindowOrder.FullTurn` | src/vtm.hpp:1579-1591 | as many rotations as windows restore the order |
| `WindowStack.Hall.GoNext` | src/vtm.hpp:1566-1578 | the back window goes to the front and the others keep their order, every window holds its own node, and the window it reports is the new front one |
| `WindowStack.Hall.GoPrev` | src/vtm.hpp:1579-1591 | the front window goes to the back, and the window it reports is the new front one |
| `WindowStack.Hall.ExposeWindow` | src/vtm.hpp:903-918 | expose moves the window to the front, keeps the holders, and restores a hidden window unless it was in front |
| `WindowStack.Hall.BubbleWindow` | src/vtm.hpp:919-934 | bubble moves it past windows it does not overlap, as far as the first that it does or to the front, and keeps the holders |
| `WindowStack.Hall.FindNextFocus` | src/vtm.hpp:703-720 | if the list holds the window or one that is visible in the viewport, the loop stops at the first rotation that has such a window in front, after at least one and at most as many rotations as there are windows |
| `WindowStack.Hall.HasItem` | src/vtm.hpp:703-720 | a window that holds a node of the list is in it, so the search that starts from it ends |
| `WindowStack.Hall.PerformAll` | src/vtm.hpp:903-934 | over any run of expose, bubble, next and prev the list has the order of the stack, holds the same windows, and every window holds its own node |
| `WindowStack.OverlapShares` | src/netxs/desktopio/geometry.hpp:266-275 | what rect::trim leaves of two rectangles is the points they share, and it leaves something just when there is one |
| `WindowStack.BubbleUnseen` | src/vtm.hpp:919-934 | no point of the screen shows another window after a bubble |
| `SessionRecord.Escape` | src/vtm-tile.cpp:48-64 | json_escape is the character by character escape |
| `SessionRecord.EscapesAre` | src/vtm-tile.cpp:48-64 | the escapes of a quote, a backslash and the three control bytes with a letter; the other control bytes go, and everything else stays |
| `SessionRecord.ParseField` | src/vtm-tile.cpp:65-104 | parse_field reads what is behind the first occurrence of the quoted key |
| `SessionRecord.UnescapesAre` | src/vtm-tile.cpp:74-94 | behind a backslash the three letters stand for those control bytes, a quote and a backslash for themselves; a quote ends the value |
| `SessionRecord.BlanksPassed` | src/vtm-tile.cpp:71-74 | blanks, tabs and colons behind the key are passed over, and a quote tells a quoted value from another |
| `SessionRecord.RawUpTo` | src/vtm-tile.cpp:95-102 | a value without quotes ends before a comma, a line end or a brace |
| `SessionRecord.FindIsFirst` | src/vtm-tile.cpp:68-69 | the occurrence found is the first one |
| `SessionRecord.UnescapedEscaped` | src/vtm-tile.cpp:74-94 | reading an escaped value gives it back without the control bytes |
| `SessionRecord.EscapedHoldsKey` | src/vtm-tile.cpp:48-69 | an escaped value holds the quoted key just when the value is the key or ends in a quote and the key |
| `SessionRecord.ParsedBody` | src/vtm-tile.cpp:65-104 | what parse_field yields for any key of any record |
| `SessionRecord.FieldRoundTrip` | src/vtm-tile.cpp:65-124 | a field of a record comes back just when no value before it is taken for its key, or it is empty |
| `SessionRecord.WriteBody` | src/vtm-tile.cpp:116-124 | the body that is written, line by line, with what parse_field yields for each of the six keys: the value without its control bytes, unless a value before it is taken for the key |
| `SessionRecord.SessionRoundTrip` | src/vtm-tile.cpp:65-124 | each of the six fields of a session comes back just when no value before it is taken for its key, or it is empty |
| `SessionRecord.UserHidesCwd` | src/vtm-tile.cpp:116-124 | whatever the other fields are, a user called cwd hides a working directory that is not empty |
| `LogMonitor.StepKeeps` | src/vtm-tile.cpp:881-959 | every step of every thread keeps the invariant: lock, counter, order, delivery, the server's fields, the replies |
| `LogMonitor.RunInv` | src/vtm-tile.cpp:881-959 | it holds in every interleaving |
| `LogMonitor.ReceivedServes` | src/vtm-tile.cpp:1099-1123 | the server's fields are the greeting it has received and the last command after it |
| `LogMonitor.ServerReceivesInOrder` | src/vtm-tile.cpp:1093-1134 | the server receives id, environment, directory, script and lines in the order of entry, none twice and none left out, up to some point; its fields hold the first three and the last line; the replies come back in that order |
| `LogMonitor.RepliesAre` | src/vtm-tile.cpp:1093-1134 | to each of the first three commands the reply is empty, and to each later one it is the command |
| `LogMonitor.ResultIsInFlight` | src/vtm-tile.cpp:883-890 | while the stream is up the counter is the number of commands and replies on their way |
| `LogMonitor.ShutLosesNothing` | src/vtm-tile.cpp:911-917 | when the end of input shuts the stream everything entered has been received and answered |
| `LogMonitor.RetriesUntilEnd` | src/vtm-tile.cpp:919-958 | until it is refused or gets through, the connect loop tries or waits to try again, and gives up just when it finds that the input has ended |
| `LogMonitor.RetryIs` | src/vtm-tile.cpp:947-957 | an attempt that fails and the next one leave everything as it was, and after the end of input there is no next one |
| `LogMonitor.DeniedEnds` | src/vtm-tile.cpp:922-926 | once the connection is refused nothing is sent in any continuation |
| `LogMonitor.StreamEndIsFinal` | src/vtm-tile.cpp:940-945 | once the connect loop has seen the end of the stream nothing more is sent, received or answered in any continuation |
| `LogMonitor.StuckForever` | src/vtm-tile.cpp:911-917 | once the end of input waits, with the lock, for a nonzero counter on a stream that is down, no step of any thread ends the wait |
| `LogMonitor.StuckHappens` | src/vtm-tile.cpp:881-937 | it comes to that: connected, greeting and script sent, the input at its end, and the stream down before the first reply |
| `LogMonitor.StuckExactly` | src/vtm-tile.cpp:881-959 | a step makes the wait such a one just when the stream goes down during the wait with a command or a reply on it, or the input ends when the stream is down, replies are missing and the connect loop has not noticed |
| `LogMonitor.StuckWhenLost` | src/vtm-tile.cpp:911-917 | while the end of input waits on a stream that is down, the wait never ends just when something was lost: on the stream when it went down, or sent since |

## Left out

- The native versions selected by `HAVE_NATIVE_*`, timing and cryptographic strength.
- `memxor` and `memxor3` with a source that begins after the destination and overlaps it, for which neither is made; in counter mode and GCM, source and destination in one area at different places.
- `gcm.c` on text whose pieces do not lie one behind the other in memory: the runs over pieces have the whole text in one area.
- In `gcm.c` the calls of `memxor` on the hash block are modelled by their result, a block value, rather than by a second in-place area; the context's blocks are values that its methods reassign.
- Sizes in memory are unbounded; only the two 64-bit size fields of the context wrap around.
- gcm_update after 2^64 bytes of text, when the text size has wrapped to zero and its assertion passes again: the runs have all associated data first.
- The remaining files of the nettle directory are wrappers or declarations; AES decryption is not part of the repository.
- Find bar: the keyboard hook, visibility, match counter and drawing of glyphs and colours; queries, clusters and pastes that are not well-formed UTF-8.
- `FindBar.FindState.KeyPress`: numeric-pad keys are the same keys as their counterparts, and the clipboard is a parameter.
- Windows: windows that come and go, focus and drawing; coordinates are unbounded.
- Session records: the file system, process checks and the table of sessions.
- Log monitor: which of its steps are eventually taken; steps that the source leaves to the socket (going down, log lines) may come at any time.
