# Verified model of a virtual file system library

A Dafny 4.11 model of a C++ library that keeps files in one archive file, compressed and encrypted, together
with the cipher, hash and JSON libraries it uses. It holds the algorithms as the code runs them, specifications
of what they are for, and proofs that connect the two. `dafny verify dfyconfig.toml` checks everything.

The parts:

* **AES-256 in CBC mode** (`GaloisField` to `CryptHelper`). The tables are generated over GF(2^8) by the loops of
  the code and proved to be the functions of FIPS 197. The table-driven rounds are proved against those, and the
  decrypter against the equivalent inverse cipher of section 5.3.5. Encrypter and decrypter are classes with the
  fields of the code; what they compute is a fold over the bytes fed to them, from which the round trip follows for
  every key, message, splitting and padding. Which blocks the mode combines is stated by the blocks alone, and the
  example of Appendix C.3 of FIPS 197 comes out (`AesExample`).
* **xxHash** (`Stripes` and the `Xxh` files). The streaming states agree with the one-shot hash for every list of
  segments. The fall-through switches agree with plain loops. The folded 128-bit product of XXH3 is exact in each of
  its versions, and so is the hash of up to 128 bytes. The `Differs` modules and `Xxh3Windows` say which changes of an
  input change its hash, for all inputs and seeds; the `Values` modules have the values of the self-test of xxhsum.
* **The archive** (`LittleEndian` and the `Archive` files). A file is a sequence of bytes with a position. The
  class `Archive` has the map and the free list of the code; its invariant says that the extents tile the file
  behind the header and that memory and bytes agree. Every operation keeps it, loading rebuilds the memory, and what
  is written is opened again. LZ4 and the name functions of the locale are function values with the contract they
  are used by.
* **RapidJSON** (the `Json` files). A grammar as recursive functions is what both parsers are proved against: the
  recursive one method by method, the table-driven one through an invariant that says what recursive descent would
  still have to do. That grammar in turn accepts exactly the texts of the syntax of RFC 8259, without numbers too big
  for a double and with the extensions the flags allow (the `Syntax` modules and `JsonAccepted`). Writer and pretty
  writer, with the level stack, the level prefix and the itoa of the code, print a text that either parser takes off
  with exactly the events of the value, and the document handler builds exactly that value from them. Strings are
  also decoded in place, in one buffer. UTF-8 and UTF-16 encoding, JSON Pointer (text form, Create and Get) and the
  pool allocator (`PoolAllocator`) follow.

The handler of the JSON reader is the sequence of events it has been told, and a function of that sequence says
whether it lets the reader go on. Doubles are given by their text; whether a number is too big for a double is a
parameter. Where the source divides or shifts, the model writes out 32-bit and 64-bit wrap-around.

What the proofs found in the code:

* A file with index 0 is written and opened, but taken for a free extent when the archive is loaded
  (VFSLib/src/VFSArchive.cpp:115-118). `Archives.Archive.Reloads` has the exact condition.
* `CVFSFile::Map` rounds the offset down and then adds the remainder of the rounded offset, which is 0
  (VFSLib/src/VFSFile.cpp:140-152), so that `ReadRawData` shows the right payload, in every archive, if and only if
  the offset is a multiple of the allocation granularity (`ArchiveViews.ViewRight`, `ArchiveCopies.ArchiveShown`),
  which in archives of whole blocks it never is (`ArchiveViews.NeverAligned`). `ArchiveCopies.FirstFileMissed` has
  an archive and a file; `ArchiveCopies.CopiesOpened` carries the condition over to what a copy opens to.
* `CopyArchive` copies nothing: its second loop enumerates the archive it has just emptied
  (VFSLib/src/VFSArchive.cpp:623-628, `ArchiveCopies.CopyArchive`). Of an empty file one round of it would hand over
  what malloc has left, since `ReadRawData` then copies not even the entry.
* Encryption takes sizes as int: data of 2^31 - 16 bytes or more cannot be opened again
  (`CryptHelper.PlainOfCipher`).
* The TLS padding length is one byte, and the size of the padding is computed in 32 bits and passed as int: the
  padding is removed exactly if and only if the number of extra blocks modulo 2^28 is at most 15
  (`Cbc.UnpaddedPadded`, `Cbc.SplitRoundTrip`).
* The size of a new extent is computed in 32 bits (`ArchiveAllocation.NewExtent`).
* Create keeps what a file that is no archive holds behind the first entry, which Load will then walk over
  (VFSLib/src/VFSArchive.cpp:143-169).
* A positive exponent may overflow an int when a number has more than 214748055 digits that count in its fraction
  (3rd/rapidjson/reader.h:1650-1657), and only then (`JsonExponent.ExponentFits`; at which step, the contract of
  `JsonReader.Reader.ParsePositiveExponent` says).
* The test for array indices that do not fit 32 bits (3rd/rapidjson/pointer.h:967-975) notices just those whose
  value in 32 bits drops at some digit; others get the index of another element (`JsonPointerParser.IndexWrapped`,
  `JsonPointerParser.IndexRight`, `JsonPointerParser.IndexWraps`).
* After Create with a name "-" for an array, Get with the same pointer finds nothing
  (`JsonPointerTree.CreatedFound`).
* XXH64 merges each lane twice, so that two inputs of one stripe that differ in one double word can have the same
  hash: `XxHash64Differs.StripeChanged` has the exact condition, `XxHash64Values.Collision` the inputs. XXH32, which
  the index of a file is, has no such inputs (`XxHash32Differs.WordChanged`, `ArchiveNames.IndicesDiffer`).
* A window of XXH3 whose half equals its part of the key hides its other half (`Xxh3Windows.FirstHalfLost`,
  `Xxh3Windows.Ignored`); `Xxh3Windows.WindowChanged` has the exact condition.

## Model

| member | source | states |
|---|---|---|
| GaloisField.MulAdd | VFSCryptLib/include/aes.h:94-97 | multiplication in GF(2^8), built from x_time, distributes over addition |
| Generator.PowerInjective | VFSCryptLib/src/aes.cpp:226-232 | the exponents 1 to 255 of {03} have distinct powers, so the logarithm table is complete |
| Generator.MulByLogs | VFSCryptLib/include/aes.h:99-109 | adding logarithms modulo 255 multiplies any two non-zero bytes |
| AesTables.MulValue | VFSCryptLib/include/aes.h:99-109 | the product of two bytes through the helper tables is their product in GF(2^8), zero included |
| AesTables.FillPowers | VFSCryptLib/src/aes.cpp:226-232 | every power of {03}; every non-zero byte gets a logarithm, that of {01} ends as 255 |
| AesTables.FillRcon | VFSCryptLib/src/aes.cpp:234-239 | the round constants are the powers of {02} |
| AesTables.SubstituteByte | VFSCryptLib/src/aes.cpp:246-253 | bit i of the result is the sum of bits i, i+4, i+5, i+6 and i+7 modulo 8 of the inverse and of bit i of {63}, as section 5.1.1 of FIPS 197 has it, and the inverse map gives the inverse back |
| SBoxes.AffineExactly | VFSCryptLib/src/aes.cpp:246-253 | the byte with those bits is the only one, and it is the running sum of rotations, for every byte |
| SBoxes.InverseInvolution | VFSCryptLib/src/aes.cpp:246 | the inverse of the inverse is the byte itself |
| SBoxes.InvSBoxSBox | VFSCryptLib/src/aes.cpp:241-257 | the inverse S-box undoes the S-box for every byte |
| SBoxes.SBoxInvSBox | VFSCryptLib/src/aes.cpp:241-257 | the S-box undoes the inverse S-box for every byte |
| AesTables.FillBoxes | VFSCryptLib/src/aes.cpp:241-257 | both boxes are complete: the inverse one is filled at every place although it is written by value |
| AesTables.FillEncryptTables | VFSCryptLib/src/aes.cpp:259-270 | the e-tables combine the S-box with the columns of MixColumns |
| AesTables.FillDecryptTables | VFSCryptLib/src/aes.cpp:272-280 | the d-tables combine the inverse S-box with the columns of InvMixColumns |
| AesImpl.CreateTables | VFSCryptLib/src/aes.cpp:219-283 | all eleven tables are right |
| Columns.InvMixColumnMixed | VFSCryptLib/src/aes.cpp:259-280 | InvMixColumns undoes MixColumns for every column |
| AesKeys.ExtractEncryptKey256 | VFSCryptLib/src/aes.cpp:118-155 | the 60 words are the key expansion of section 5.2 of FIPS 197 |
| AesKeys.ReverseRoundKeys | VFSCryptLib/src/aes.cpp:180-188 | the order of the round keys is reversed in place |
| AesKeys.InvertRoundKeys | VFSCryptLib/src/aes.cpp:178-216 | reversed in place and all round keys but the first and last transformed |
| AesKeys.ExtractDecryptKey | VFSCryptLib/src/aes.cpp:178-216 | from an expanded key, the round keys of the equivalent inverse cipher, section 5.3.5 of FIPS 197 |
| AesImpl.EncryptBlock | VFSCryptLib/src/aes256_encrypt.cpp:151-253 | the table-driven rounds on four words are the cipher of section 5.1 of FIPS 197 |
| AesImpl.DecryptBlock | VFSCryptLib/src/aes256_decrypt.cpp:182-285 | the table-driven rounds are the equivalent inverse cipher |
| RoundCipher.EquivalentInverse | VFSCryptLib/src/aes256_decrypt.cpp:182-285 | for any layers that commute as required, any number of rounds: the inverse rounds with reversed, transformed keys undo the cipher |
| Quads.EquivalentRoundKeys | VFSCryptLib/src/aes.cpp:178-216 | reversing the expanded key and transforming its inner round keys gives keys for the equivalent inverse |
| AesSpec.DecryptEncrypt | VFSCryptLib/src/aes.cpp:118-216 | for every 256-bit key and block, decryption with the transformed key undoes encryption |
| AesExample.Example | VFSCryptLib/src/aes256_encrypt.cpp:151-253 | the example for AES-256 in Appendix C.3 of FIPS 197: key expansion and cipher give its output |
| Cbc.DecStepUndoes | VFSCryptLib/src/aes256_decrypt.cpp:182-285 | for every key, chaining value and block, a decryption step undoes an encryption step and leaves equal chaining values |
| Cbc.EncryptsCbc | VFSCryptLib/src/aes256_encrypt.cpp:151-253 | for every key, vector and message of whole blocks, cipher block i is the encryption of message block i combined with cipher block i - 1, or with the vector at first; the last one is the chaining value that is left |
| Cbc.DecryptsCbc | VFSCryptLib/src/aes256_decrypt.cpp:182-285 | for every key, vector and cipher text of whole blocks, block i is decrypted and combined with cipher block i - 1, or with the vector at first |
| Cbc.PaddingBytes | VFSCryptLib/src/aes256_encrypt.cpp:113-149 | every byte of PKCS#7 padding is its length, every byte of TLS padding the last byte of one less; how long it is, extra blocks included |
| Chunking.FeedConcat | VFSCryptLib/src/aes256_encrypt.cpp:84-111 | feeding a concatenation is feeding its parts in order, for both the eager and the held-back stream |
| Chunking.WholeBlocks | VFSCryptLib/src/aes256_decrypt.cpp:81-112 | what an encrypter puts out for whole blocks gives a decrypter that holds back one block the same blocks, the last one still held |
| Cbc.UnpaddedPadded | VFSCryptLib/src/aes256_decrypt.cpp:114-180 | for every 32-bit count of extra blocks, padding is removed exactly if and only if it is PKCS#7 or the count modulo 2^28 is at most 15 |
| Cbc.RoundTrip | VFSCryptLib/src/aes256_encrypt.cpp:84-149 | decrypting the encryption of any message gives it back, for both paddings, under that condition and only then, also when the size of the padding wraps around or does not fit an int |
| Cbc.SplitRoundTrip | VFSCryptLib/src/aes256_decrypt.cpp:81-180 | the same equivalence for every way of splitting the message and the encrypted bytes over add calls |
| Cbc.FeedAllFlattened | VFSCryptLib/src/aes256_encrypt.cpp:84-111 | add calls one after another are one add call with all bytes |
| AesEncrypter.Encrypter.SetIv | VFSCryptLib/src/aes256_encrypt.cpp:59-67 | the chaining words are those of the vector |
| AesEncrypter.Encrypter.SetPadding | VFSCryptLib/src/aes256_encrypt.cpp:69-76 | the settings are stored even when the number of blocks is refused |
| AesEncrypter.Encrypter.SetKey | VFSCryptLib/src/aes256_encrypt.cpp:78-82 | the key schedule is that of the key |
| AesEncrypter.Encrypter.ProcessChunk | VFSCryptLib/src/aes256_encrypt.cpp:151-253 | the block combined with the chaining value is encrypted and appended, and becomes the next chaining value |
| AesEncrypter.Encrypter.Add | VFSCryptLib/src/aes256_encrypt.cpp:84-111 | the state becomes the one after feeding all bytes; errors when key or vector are missing |
| AesEncrypter.Encrypter.Calculate | VFSCryptLib/src/aes256_encrypt.cpp:113-149 | padding and the last blocks; refuses partial blocks without padding |
| AesDecrypter.Decrypter.SetKey | VFSCryptLib/src/aes256_decrypt.cpp:74-79 | the key schedule is that of the equivalent inverse cipher |
| AesDecrypter.Decrypter.ProcessChunk | VFSCryptLib/src/aes256_decrypt.cpp:182-285 | the block is decrypted, combined with the chaining value and appended, and becomes the next chaining value |
| AesDecrypter.Decrypter.Add | VFSCryptLib/src/aes256_decrypt.cpp:81-112 | the loop ends although a round with a held full chunk takes in no byte; the state becomes the one after feeding all bytes with one block held back |
| AesDecrypter.Decrypter.Calculate | VFSCryptLib/src/aes256_decrypt.cpp:114-180 | the held block is processed, its padding checked and removed; false exactly when it is wrong |
| DataBuffers.DataBuffer.SetSize | VFSCryptLib/src/DataBuffer.cpp:125-141 | growing keeps the contents and adds zeros beyond the old capacity |
| DataBuffers.DataBuffer.SetCapacity | VFSCryptLib/src/DataBuffer.cpp:143-154 | the contents stay, whatever is allocated |
| DataBuffers.DataBuffer.Append16 | VFSCryptLib/src/aes.cpp:156-176 | sixteen bytes are appended, the capacity grows by 1 KiB when needed |
| CryptHelper.ConvertAscii | VFSLib/src/CryptHelper.cpp:17-30 | a byte for two letters; the number they denote when they are hexadecimal digits, in capital letters or small ones |
| CryptHelper.CipherLength | VFSLib/src/CryptHelper.cpp:33-64 | the encrypted size is the next multiple of 16 above the size |
| CryptHelper.CipherTextCbc | VFSLib/src/CryptHelper.cpp:33-64 | encrypted data is the CBC encryption of the data with its PKCS#7 padding, by the blocks alone |
| CryptHelper.PlainTextCbc | VFSLib/src/CryptHelper.cpp:66-98 | decrypted data is the CBC decryption, by the blocks alone, with the padding removed |
| CryptHelper.PlainOfCipher | VFSLib/src/CryptHelper.cpp:33-98 | decrypting the encryption gives the data back if and only if the data is shorter than 2^31 - 16 bytes |
| CryptHelper.Encrypt | VFSLib/src/CryptHelper.cpp:33-64 | the composition of the encrypter calls is that function |
| CryptHelper.Decrypt | VFSLib/src/CryptHelper.cpp:66-98 | the composition of the decrypter calls is that function |
| Stripes.ConsumeMore | 3rd/xxHash/xxhash.c:483-545 | hashing segments: the bytes left of earlier segments in front of the next one give the same accumulators and rest as all bytes at once |
| Stripes.AbsorbSegment | 3rd/xxHash/xxhash.c:483-545 | buffer fill, buffered stripe, stripe loop and leftover copy together do that for one segment |
| XxHash32.Finalize | 3rd/xxHash/xxhash.c:331-388 | the fall-through switch on the length is a loop over words, then bytes |
| XxHash32.Hash | 3rd/xxHash/xxhash.c:390-427 | the one-shot hash; which bytes count how, the rows below say |
| XxHash32.State.Update | 3rd/xxHash/xxhash.c:483-545 | the state after a segment is that of all bytes so far |
| XxHash32.State.Digest | 3rd/xxHash/xxhash.c:547-563 | the digest is the one-shot hash of all bytes so far, also beyond 2^32 of them |
| XxHash32.HashSegments | 3rd/xxHash/xxhash.c:434-437 | for every seed and list of segments, reset, updates and digest give the hash of the concatenation |
| XxHash32Differs.WordChanged | 3rd/xxHash/xxhash.c:390-427 | for every seed, inputs of the same length that differ inside one aligned word, of a stripe or of the tail, never have the same hash |
| XxHash32Differs.ByteChanged | 3rd/xxHash/xxhash.c:331-388 | nor do inputs that differ in one of the bytes after the last word |
| XxHash32Values.NoByte | 3rd/xxHash/xxhsum.c:656 | the published hash of nothing |
| XxHash32Values.FourteenBytes | 3rd/xxHash/xxhsum.c:660 | the published hash of 14 bytes: words and bytes of the tail, lowest byte first |
| XxHash32Values.LongSample | 3rd/xxHash/xxhsum.c:663 | the published hash of 222 bytes with a seed: 13 stripes, all lanes, the merge and the tail |
| XxHash64.Finalize | 3rd/xxHash/xxhash.c:711-816 | the fall-through switch on the length is a loop over double words, words, then bytes |
| XxHash64.Hash | 3rd/xxHash/xxhash.c:819-860 | the one-shot hash |
| XxHash64.State.Update | 3rd/xxHash/xxhash.c:914-973 | the state after a segment is that of all bytes so far |
| XxHash64.State.Digest | 3rd/xxHash/xxhash.c:975-997 | the digest is the one-shot hash as long as the 64-bit length has not wrapped around to less than a stripe |
| XxHash64.HashSegments | 3rd/xxHash/xxhash.c:867-870 | the hash of the concatenation for every list of segments below 2^64 bytes |
| XxHash64Differs.TailChanged | 3rd/xxHash/xxhash.c:711-816 | for every seed, inputs of the same length that differ inside one double word, word or byte of the tail never have the same hash |
| XxHash64Differs.StripeChanged | 3rd/xxHash/xxhash.c:819-860 | inputs that differ inside one double word of a stripe: their accumulators differ in one lane, and their hashes are equal if and only if the two uses of that lane in the merge cancel out |
| XxHash64Values.Collision | 3rd/xxHash/xxhash.c:819-860 | two inputs of one stripe that differ in their first double word alone, where they do, so that the hashes are equal |
| XxHash64Values.NoByte | 3rd/xxHash/xxhsum.c:665 | the published hash of nothing |
| XxHash64Values.FourteenBytes | 3rd/xxHash/xxhsum.c:669 | the published hash of 14 bytes: double word, word and bytes of the tail |
| XxHash64Values.LongSample | 3rd/xxHash/xxhsum.c:672 | the published hash of 222 bytes with a seed: six stripes, all lanes, the merge and the tail |
| Xxh3Multiply.Portable | 3rd/xxHash/xxh3.h:247-269 | four 32-bit products and two carries give the low plus the high half of the exact 128-bit product; no intermediate value overflows unnoticed |
| Xxh3Multiply.Accumulated | 3rd/xxHash/xxh3.h:209-245 | the multiply-accumulate version gives the same number |
| Xxh3Multiply.MultiplyAccumulate | 3rd/xxHash/xxh3.h:179-186 | a product and two 32-bit summands fit 64 bits |
| Xxh3Multiply.HighHalf | 3rd/xxHash/xxh3.h:139-145 | the high half of the product fits 64 bits |
| Xxh3.Multiply | 3rd/xxHash/xxh3.h:139-270 | all three ways to multiply give the folded product |
| Xxh3.HashRounds | 3rd/xxHash/xxh3.h:634-666 | the tests of the length inside one another are rounds of 32 bytes, from the middle outwards, on every platform |
| Xxh3Windows.EveryByteMixed | 3rd/xxHash/xxh3.h:642-665 | every byte of 17 to 128 is in one of the windows of sixteen bytes, counted from the start and from the end |
| Xxh3Windows.RoundsAdd | 3rd/xxHash/xxh3.h:634-666 | the rounds add up one product for each window, modulo 2^64 |
| Xxh3Windows.WindowChanged | 3rd/xxHash/xxh3.h:634-666 | inputs that differ inside one window alone have the same hash if and only if the product of that window is the same |
| Xxh3Windows.FirstHalfLost | 3rd/xxHash/xxh3.h:591-600 | a window whose second half is its part of the key has the product 0, whatever the first half is |
| Xxh3Windows.SecondHalfLost | 3rd/xxHash/xxh3.h:591-600 | and the other way round |
| Xxh3Windows.Ignored | 3rd/xxHash/xxh3.h:634-666 | so for every seed there are 32-byte inputs that differ in eight bytes at will and have the same hash |
| Xxh3Values.OneByte | 3rd/xxHash/xxhsum.c:677 | the published hash of 1 byte with a seed |
| Xxh3Values.SixBytes | 3rd/xxHash/xxhsum.c:679 | the published hash of 6 bytes with a seed |
| Xxh3Values.TwelveBytes | 3rd/xxHash/xxhsum.c:681 | the published hash of 12 bytes with a seed |
| Xxh3Values.LongSample | 3rd/xxHash/xxhsum.c:689 | the published hash of 112 bytes with a seed: all four rounds and eight windows |
| Xxh3.Hash64 | 3rd/xxHash/xxh3.h:286-354 | the hash of up to 128 bytes does not depend on how the platform multiplies |
| ArchiveFormat.HeaderOfBytes | VFSLib/src/VFSArchive.cpp:20-26 | a written header is read back |
| ArchiveFormat.EntryOfBytes | VFSLib/src/VFSArchive.cpp:28-34 | a written entry of 551 packed bytes is read back, every field of it |
| ArchiveFormat.HeaderOffsets | VFSLib/src/VFSArchive.cpp:20-26 | where each field of the header lies |
| ArchiveFormat.EntryOffsets | VFSLib/include/VFSArchive.h:18-30 | where each field of an entry lies, in the order of the packed structures |
| LittleEndian.LowestFirst32 | VFSLib/src/VFSArchive.cpp:20-34 | the four bytes of a field, the lowest first |
| LittleEndian.LowestFirst64 | VFSLib/src/VFSArchive.cpp:28-34 | the eight bytes of an offset are the lower half and the upper half |
| ArchiveNames.GenerateNameIndex | VFSLib/src/VFSArchive.cpp:194-210 | the XXH32 of the normalised wide name |
| ArchiveNames.SlashesAgree | VFSLib/src/VFSArchive.cpp:196-204 | names that differ only in their slashes have the same index |
| ArchiveNames.LettersAgree | VFSLib/src/VFSArchive.cpp:194-210 | so do names that differ only in their slashes and in capital and small letters |
| ArchiveNames.IndicesDiffer | VFSLib/src/VFSArchive.cpp:194-210 | names of the same length that after this still differ in one pair of characters at an even place alone never have the same index |
| ArchiveNames.LowerByteFirst | VFSLib/src/VFSArchive.cpp:205-209 | each character counts with two bytes, the lower one first |
| ArchiveNames.EmptyName | VFSLib/src/VFSArchive.cpp:205-209 | the index of the empty name is the published XXH32 of nothing with the seed 0 |
| ArchivePayload.Compress | VFSLib/src/VFSArchive.cpp:348-372 | compressed data is kept only when it is smaller than the bound; otherwise the flag is dropped |
| ArchivePayload.StoredSize | VFSLib/src/VFSArchive.cpp:376-385 | the stored size from the packed size |
| ArchivePayload.UnpackedExactly | VFSLib/src/VFSArchive.cpp:268-316 | for every codec, key, entry and stored bytes: they open as some contents if and only if those are what bits 0 and 1 of the flags make of them, the codec has read as many bytes as the entry says, and the hash agrees |
| ArchivePayload.UnpackedHash | VFSLib/src/VFSArchive.cpp:306-312 | whatever opens has the hash of its entry, encrypted or not |
| ArchivePayload.UnpackedPacked | VFSLib/src/VFSArchive.cpp:268-316 | for all four combinations of flags, what Write stores is unpacked into the data by Open |
| ArchivePayload.UnpackedRenamed | VFSLib/src/VFSArchive.cpp:245-317 | the name plays no part in reading |
| ArchiveAllocation.FindFit | VFSLib/src/VFSArchive.cpp:393-404 | the loop finds the first of the smallest free extents that hold the payload, or that there is none |
| ArchiveAllocation.AlignBlocks | VFSLib/src/VFSArchive.cpp:12-14 | ALIGNTO gives whole blocks, one more than needed when the size is aligned already |
| ArchiveAllocation.NewExtent | VFSLib/src/VFSArchive.cpp:406-414 | a new extent holds entry and payload if and only if its size does not wrap around 32 bits |
| ArchiveAllocation.RewriteFits | VFSLib/src/VFSArchive.cpp:389-414 | a payload that fits the extent it had before never makes the file grow |
| ArchiveLayout.Placed | VFSLib/src/VFSArchive.cpp:109-121 | each extent lies where its entry says |
| ArchiveLayout.ExtentsApart | VFSLib/src/VFSArchive.cpp:406-441 | of two extents the first ends before the second starts; the last one ends with the file |
| ArchiveLayout.OverwriteExtent | VFSLib/src/VFSArchive.cpp:430-432 | writing an entry and payload over an extent changes nothing else |
| ArchiveLayout.ReplaceExtent | VFSLib/src/VFSArchive.cpp:430-441 | changing an extent in place keeps the tiling; files and free extents change by that one |
| ArchiveLayout.AppendExtent | VFSLib/src/VFSArchive.cpp:406-414 | a new extent at the end keeps the tiling |
| ArchiveWalk.WalkTiled | VFSLib/src/VFSArchive.cpp:109-121 | the walk over a tiled file visits its extents one by one and ends at the end of the file |
| ArchiveWalk.Reloaded | VFSLib/src/VFSArchive.cpp:109-124 | the walk gives the map back if and only if no live file has index 0, and then the free extents too |
| ArchiveWalk.LoadedConsistent | VFSLib/src/VFSArchive.cpp:92-124 | a consistent file can be loaded; what is loaded is what the memory held, under the same condition |
| ArchiveSteps.FreeStep | VFSLib/src/VFSArchive.cpp:460-478 | making a live extent free keeps memory and file in step |
| ArchiveSteps.ReuseStep | VFSLib/src/VFSArchive.cpp:416-441 | filling a free extent keeps memory and file in step |
| ArchiveSteps.GrowStep | VFSLib/src/VFSArchive.cpp:406-441 | appending an extent keeps memory and file in step |
| ArchiveSteps.StoreStep | VFSLib/src/VFSArchive.cpp:391-441 | storing a payload either way does |
| ArchiveSteps.SpaceInRange | VFSLib/src/VFSArchive.cpp:406-414 | payloads up to about 2^31 bytes always find a place |
| ArchiveSteps.OpenedStored | VFSLib/src/VFSArchive.cpp:245-317 | what was stored under an index is opened again |
| ArchiveSteps.OpenedOthers | VFSLib/src/VFSArchive.cpp:245-317 | every other index is opened as before |
| Archives.Allocate | VFSLib/src/VFSArchive.cpp:391-414 | the chosen extent, or new blocks at the end of the file, which grows only when no free extent fits |
| Archives.ReadEntries | VFSLib/src/VFSArchive.cpp:109-121 | the loading loop ends and does what the walk does |
| Archives.StartFile | VFSLib/src/VFSArchive.cpp:145-169 | header and padding are written |
| Archives.Archive.Delete | VFSLib/src/VFSArchive.cpp:445-480 | the extent becomes free, the index is gone, everything else is opened as before; false changes nothing |
| Archives.Archive.Store | VFSLib/src/VFSArchive.cpp:391-441 | the shared part of Write and WriteRawData keeps the archive consistent and stores exactly the payload |
| Archives.Archive.Replace | VFSLib/src/VFSArchive.cpp:389-441 | an index holds the new payload, all others what they held, and the file grows only if no free extent fits, the deleted one included |
| Archives.Archive.Write | VFSLib/src/VFSArchive.cpp:325-443 | after a successful Write, Open returns exactly the data, for all flags, and every other index is unchanged |
| Archives.Archive.Open | VFSLib/src/VFSArchive.cpp:245-317 | the contents of the index, which have its hash, or nothing; the archive is unchanged |
| Archives.Archive.WriteRawData | VFSLib/src/VFSArchive.cpp:549-614 | the entry and payload of another archive are stored; all else is as before |
| Archives.Archive.ReadRawData | VFSLib/src/VFSArchive.cpp:514-548 | the entry and what the mapped view shows, cut at maxlength; nothing when there is no room for more than the entry; a file of size 0 maps the whole archive |
| Archives.Archive.Load | VFSLib/src/VFSArchive.cpp:64-125 | loading gives what the walk gives, torn entries included, and the whole layout of a consistent archive without index 0; or false with an empty archive |
| Archives.Archive.Reloads | VFSLib/src/VFSArchive.cpp:92-124 | in every consistent archive, loading its bytes rebuilds map and free extents if and only if no live file has index 0 |
| Archives.Archive.Create | VFSLib/src/VFSArchive.cpp:127-172 | an existing archive is loaded, with its layout if it has a consistent one; any other file becomes an empty archive, consistent if and only if it is not longer than the space before the first entry |
| Archives.Archive.Run | VFSLib/src/VFSArchive.cpp:325-614 | after any run of Write, Delete and WriteRawData on a consistent archive with sizes in range it is consistent, and holds no index that no operation has put |
| Archives.RunAndLoad | VFSLib/src/VFSArchive.cpp:64-172 | from a new archive on, after any such run that puts nothing under index 0, another archive loads the file and has the same files, free extents and layout |
| ArchiveViews.ViewRight | VFSLib/src/VFSFile.cpp:137-163 | views of some size at an offset are the payload there in every file if and only if the offset is a multiple of the allocation granularity |
| ArchiveCopies.ArchiveShown | VFSLib/src/VFSFile.cpp:137-163 | the same over all consistent archives: their live files of that size at that offset are all shown right if and only if the offset is such a multiple |
| ArchiveCopies.FirstShown | VFSLib/src/VFSFile.cpp:137-163 | in every consistent archive, a file at an offset below the granularity is shown wrong unless it starts with the first byte of the archive |
| ArchiveCopies.FirstFileMissed | VFSLib/src/VFSArchive.cpp:514-548 | an archive of 4096-byte blocks as Create makes it whose first file opens, while ReadRawData shows something else, which does not open as that file |
| ArchiveCopies.CopiesOpened | VFSLib/src/VFSArchive.cpp:616-651 | what is stored of the views at an offset opens as the payloads there do, for all contents and entries that open, if and only if the offset is a multiple of the granularity |
| ArchiveCopies.CopyFile | VFSLib/src/VFSArchive.cpp:628-648 | one round of copying stores entry and view, all other files stay; the copy opens as the file does when its offset is such a multiple, and a plain file exactly when the view is its payload |
| ArchiveCopies.CopyArchive | VFSLib/src/VFSArchive.cpp:616-651 | whatever the source holds, the target ends empty, and true is returned; a target that cannot be written stays as it is |
| ArchiveViews.NeverAligned | VFSLib/src/VFSFile.cpp:140-152 | when the first entry starts at a block, blocks are larger than an entry and the granularity is whole blocks, no payload offset is a multiple of it |
| JsonReader.Reader.SkipWhitespaceAndComments | 3rd/rapidjson/reader.h:708-735 | what is skipped, for both settings of the comments flag; an unclosed comment is an error |
| JsonSpaceSyntax.SpaceRead | 3rd/rapidjson/reader.h:708-735 | white space and comments are skipped whole |
| JsonSpaceSyntax.SpaceFound | 3rd/rapidjson/reader.h:708-735 | and only they are |
| JsonReader.Reader.ParseHex4 | 3rd/rapidjson/reader.h:903-923 | four hexadecimal digits or an error |
| JsonReader.Reader.ParseEscape | 3rd/rapidjson/reader.h:1008-1034 | every escape sequence and surrogate pair in UTF-8, or an error |
| JsonStringSyntax.ScalarRead | 3rd/rapidjson/reader.h:1008-1034 | for every scalar value, its UTF-16 units as \\u escapes, in capital letters or small ones, are read as its UTF-8 encoding |
| JsonStringSyntax.LoneHigh | 3rd/rapidjson/reader.h:1018-1030 | a high surrogate that no low one follows is an error |
| JsonStringSyntax.ShortRead | 3rd/rapidjson/reader.h:993-1008 | the character each of the eight short escapes stands for |
| JsonStringSyntax.UnitsRead | 3rd/rapidjson/reader.h:988-1054 | every string body made of plain characters and escapes is read as its value |
| JsonStringSyntax.UnitsFound | 3rd/rapidjson/reader.h:988-1054 | and every string body that is read is made of them |
| JsonReader.Reader.ParseStringToStream | 3rd/rapidjson/reader.h:988-1054 | the decoded string with a null character after it, or an error |
| JsonReader.Reader.ParseString | 3rd/rapidjson/reader.h:956-985 | the string or key is given to the handler |
| JsonReader.Reader.Accumulate | 3rd/rapidjson/reader.h:1482-1506 | no product or sum of the loop exceeds its type; the loop stops exactly when one more digit would |
| JsonReader.Reader.Parse32 | 3rd/rapidjson/reader.h:1480-1506 | the exact value, or that 64 bits are needed, or that they are not enough |
| JsonReader.Reader.Parse64 | 3rd/rapidjson/reader.h:1534-1566 | the exact value unless it exceeds 64 bits, and exactly then a double |
| JsonReader.Reader.ParseWhole | 3rd/rapidjson/reader.h:1470-1566 | the digits before a decimal point, without leading zeros |
| JsonReader.Reader.ParseFraction | 3rd/rapidjson/reader.h:1568-1612 | all digits are taken, and the decimal exponent counts those that matter |
| JsonReader.Reader.ParseNegativeExponent | 3rd/rapidjson/reader.h:1632-1649 | with at most 2^30 fraction digits the exponent, and its sum with that of the fraction, stay inside an int |
| JsonReader.Reader.ParsePositiveExponent | 3rd/rapidjson/reader.h:1650-1657 | refused exactly when the exponent exceeds 308 plus the counted digits; every value on the way stays inside an int if and only if no step that is reached exceeds it |
| JsonReader.Reader.ParseFractionAndExponent | 3rd/rapidjson/reader.h:1570-1664 | the parts of the number, the two error cases, and whether its exponent stays inside an int all the way, by the parts alone |
| JsonExponent.ExponentFits | 3rd/rapidjson/reader.h:1650-1657 | no number text with n counted fraction digits drives its exponent beyond an int if and only if n is at most 214748055 |
| JsonExponent.LongZeroOverflows | 3rd/rapidjson/reader.h:1650-1657 | for every larger n, 0. with n zeros and the exponent 2147483649 is a number text that does |
| JsonReader.Reader.ParseNumber | 3rd/rapidjson/reader.h:1453-1732 | an integer event with the exact value for what fits 64 bits, a double for everything else, or an error |
| JsonNumberSyntax.NumeralRead | 3rd/rapidjson/reader.h:1453-1732 | every number of section 6 of RFC 8259 is taken off the text when nothing behind it could belong to it |
| JsonNumberSyntax.NumeralFound | 3rd/rapidjson/reader.h:1453-1732 | and whatever is taken for a number is one |
| JsonNumberSyntax.NumberRead | 3rd/rapidjson/reader.h:1453-1732 | the event of a number: its value for whole numbers of up to 64 bits, otherwise a double, unless it is too big |
| JsonReader.Reader.ParseValue | 3rd/rapidjson/reader.h:1735-1749 | recursive descent on a value as the grammar says |
| JsonReader.Reader.ParseObject | 3rd/rapidjson/reader.h:737-803 | the members and their count modulo 2^32 |
| JsonReader.Reader.ParseArray | 3rd/rapidjson/reader.h:805-851 | the elements and their count modulo 2^32 |
| JsonReader.Reader.ParseRecursive | 3rd/rapidjson/reader.h:556-588 | the whole text: acceptance, events and text left are those of the grammar |
| JsonSyntax.ValueRead | 3rd/rapidjson/reader.h:1735-1749 | every text of a syntax tree by RFC 8259, with any white space, comments if allowed, and escapes, is taken off as a value, with the events of the tree |
| JsonAccepted.AcceptedExactly | 3rd/rapidjson/reader.h:556-588 | a text is accepted with some events, up to a rest, if and only if it is the text of a syntax tree with these events, with the trailing commas, the comments and the rest that the flags allow |
| JsonReader.Reader.AdvanceTo | 3rd/rapidjson/reader.h:1992-2144 | one transition of the automaton |
| JsonReader.Reader.IterativeParse | 3rd/rapidjson/reader.h:2175-2208 | the loop of the automaton does exactly what the recursive parser does on every text |
| JsonAutomaton.Step | 3rd/rapidjson/reader.h:1801-2144 | a step keeps the frames in order and takes in text, so that the parser ends |
| JsonAutomaton.StepKeeps | 3rd/rapidjson/reader.h:1992-2144 | one step keeps what recursive descent still has to do with the rest of the text and the open containers |
| JsonAutomaton.RunMeaning | 3rd/rapidjson/reader.h:2175-2208 | from every state the automaton does what is left of recursive descent |
| JsonAutomaton.ParsersAgree | 3rd/rapidjson/reader.h:556-588 | for every text, flags and handler both parsers accept alike, leave the same text and emit the same events with the same counts, also before a failure |
| JsonNumber.NothingCounts | 3rd/rapidjson/reader.h:1571-1612 | after a whole number of more than 64 bits no fraction digit counts |
| JsonPrinter.EscapedBody | 3rd/rapidjson/writer.h:376-448 | the reader undoes the escape of each of the 256 bytes |
| JsonPrinter.QuotedBody | 3rd/rapidjson/writer.h:376-448 | and of every byte string, embedded null characters included |
| JsonExamples.EscapesUsed | 3rd/rapidjson/writer.h:376-448 | quotation mark, reverse solidus and characters below space are escaped, no others; in the short form if there is one, otherwise with capital hexadecimal digits |
| JsonExamples.ShortEscapes | 3rd/rapidjson/writer.h:376-448 | the seven short forms |
| JsonPrinter.IntegerRead | 3rd/rapidjson/writer.h:312-346 | every integer of 64 bits is read back exactly |
| JsonPrinter.PrintThen | 3rd/rapidjson/writer.h:472-490 | a value is printed the same whatever follows it |
| JsonPrinter.PrintedValue | 3rd/rapidjson/writer.h:181-257 | for every value without doubles, format and flags, the reader takes the printed value off the text with the events of that value |
| JsonPrinter.PrintedDocument | 3rd/rapidjson/prettywriter.h:95-255 | the reader accepts the whole printed text, compact or pretty, with the events of the value |
| JsonExamples.CompactSample | 3rd/rapidjson/writer.h:181-257 | an object with an array of two values, an empty object and an empty array, character by character |
| JsonExamples.PrettySample | 3rd/rapidjson/prettywriter.h:95-255 | the same in the pretty format, indented by four spaces |
| JsonExamples.SingleLineSample | 3rd/rapidjson/prettywriter.h:208-250 | the same with arrays on one line |
| JsonWriter.Writer.Prefix | 3rd/rapidjson/writer.h:472-490 | comma, colon or nothing, by the level stack |
| JsonWriter.Writer.PrettyPrefix | 3rd/rapidjson/prettywriter.h:208-250 | the same with indentation |
| JsonWriter.Writer.WriteIndent | 3rd/rapidjson/prettywriter.h:252-255 | depth times the indentation |
| JsonWriter.Writer.WriteString | 3rd/rapidjson/writer.h:376-448 | the quoted string; never more than 2 + 6 characters per character, as reserved |
| JsonItoa.DecimalSplit | 3rd/rapidjson/internal/itoa.h:59-112 | the decimal digits of a number are those of its first part and all digits of the rest, leading zeros included |
| JsonItoa.PutSixteen | 3rd/rapidjson/internal/itoa.h:178-224 | the guarded digits of the first half, tested on the whole number, leave out exactly its leading zeros |
| JsonItoa.U32toa | 3rd/rapidjson/internal/itoa.h:39-113 | every branch of u32toa writes the decimal digits of the number |
| JsonItoa.U64toa | 3rd/rapidjson/internal/itoa.h:126-292 | every branch of u64toa writes the decimal digits of the number, for all 64-bit numbers |
| JsonItoa.I32toa | 3rd/rapidjson/internal/itoa.h:115-124 | the sign and the digits of the magnitude, the least number included |
| JsonItoa.I64toa | 3rd/rapidjson/internal/itoa.h:294-303 | the same for 64 bits |
| JsonWriter.Writer.Integer | 3rd/rapidjson/writer.h:312-346 | the text of the integer, written by itoa for its type and within its buffer |
| JsonWriter.Writer.Start | 3rd/rapidjson/writer.h:215-243 | a level is pushed after its value has been counted |
| JsonWriter.Writer.End | 3rd/rapidjson/prettywriter.h:137-178 | the level is popped; a new line only if it was not empty, and not in single-line arrays |
| JsonWriter.FitsBuffer | 3rd/rapidjson/writer.h:312-346 | the buffers of 10 to 21 characters hold every number of their type |
| JsonAccept.Accept | 3rd/rapidjson/document.h:1868-1905 | a value replayed into a writer is written as its printed text and counted as one value |
| JsonRoundTrip.Stringify | 3rd/rapidjson/writer.h:99-106 | a fresh writer prints the value |
| JsonRoundTrip.PrintAndParse | 3rd/rapidjson/document.h:2258-2275 | writer, either parser and document handler together give back exactly the value, for every format and all flags |
| JsonTree.ReplayedNormal | 3rd/rapidjson/document.h:711-748 | whichever constructor stored a number, its flags make it replay as the first of Int, Uint, Int64, Uint64 that holds it |
| JsonDocument.Document.EndArray | 3rd/rapidjson/document.h:2473-2477 | the elements are popped into the value below them |
| JsonDocument.Document.EndObject | 3rd/rapidjson/document.h:2465-2469 | the names and values are popped in pairs into the value below them |
| JsonDocument.Document.Populate | 3rd/rapidjson/document.h:2239-2246 | the events build the one value that is left |
| JsonDocument.FeedValue | 3rd/rapidjson/document.h:2437-2477 | the events of a value push exactly that value, whatever the stack holds and whatever comes after |
| JsonDocument.BuiltValue | 3rd/rapidjson/document.h:2437-2477 | the events of a value, read or replayed, leave exactly that value |
| JsonDocument.PrintedParsed | 3rd/rapidjson/writer.h:181-257 | for all flags and formats a printed value is parsed into the same value |
| JsonParsed.ParsedValue | 3rd/rapidjson/reader.h:1735-1749 | the events of every accepted value are those of one value, with integers in their normal type |
| JsonParsed.ParsedDocument | 3rd/rapidjson/document.h:2437-2477 | every accepted text below 4 GiB leaves exactly one value, and that value replays the events of the reader with normalised integers |
| JsonParsed.AcceptedTextsAreValues | 3rd/rapidjson/document.h:2437-2477 | the same as a statement about texts: there is such a value |
| JsonParsed.FeedCanonical | 3rd/rapidjson/document.h:711-748 | the type of an integer event does not change the value that is built |
| JsonStringValue.StringValue.constructor | 3rd/rapidjson/document.h:2066-2082 | a string is read back with its length and terminator, inline below the capacity of a value, whatever that is, also when its length byte is the terminator |
| JsonStored.ReplaysTree | 3rd/rapidjson/document.h:1868-1905 | however strings are stored, inline or in memory of their own, and whichever constructor has stored the numbers, Accept replays the events of the tree that the value stands for |
| JsonInsitu.InsituStream.Put | 3rd/rapidjson/stream.h:199 | only what has been read is overwritten |
| JsonInsitu.InsituStream.ParseStringToStream | 3rd/rapidjson/reader.h:988-1054 | in one buffer: the same string as the copying parse, the write position never behind the read position, all unread and all earlier characters unchanged, also after an error |
| JsonInsitu.InsituStream.ParseString | 3rd/rapidjson/reader.h:964-974 | the string lies where it stood, with a null character after it |
| JsonEncodings.Masks | 3rd/rapidjson/encodings.h:204-220 | the masks select the ranges of continuation bytes that RFC 3629 allows |
| JsonEncodings.DecodesWellFormed | 3rd/rapidjson/encodings.h:146-176 | UTF-8 decoding accepts exactly the texts that start with a sequence of section 4 of RFC 3629 |
| JsonEncodings.DecodeEncode8 | 3rd/rapidjson/encodings.h:101-176 | decoding undoes UTF-8 encoding for every scalar value |
| JsonEncodings.EncodeDecode8 | 3rd/rapidjson/encodings.h:101-176 | whatever is decoded is a scalar value, and its encoding is what was read |
| JsonEncodings.Utf8Places | 3rd/rapidjson/encodings.h:101-130 | the bits of a code point lie in the bytes as the table in section 3 of RFC 3629 has them |
| JsonEncodings.DecodeEncode16 | 3rd/rapidjson/encodings.h:275-322 | the same for UTF-16 |
| JsonEncodings.EncodeDecode16 | 3rd/rapidjson/encodings.h:275-322 | and back |
| JsonEncodings.Surrogates | 3rd/rapidjson/encodings.h:275-290 | the high surrogate carries the upper ten bits of a code point less 2^16, the low one the lower ten |
| JsonEncodings.DecodeEncodeAll8 | 3rd/rapidjson/encodings.h:657-667 | every sequence of scalar values is decoded from its UTF-8 text |
| JsonEncodings.EncodeDecodeAll8 | 3rd/rapidjson/encodings.h:657-667 | and no other text is decoded into it |
| JsonEncodings.Transcode8To16 | 3rd/rapidjson/encodings.h:657-667 | a text is transcoded if and only if it is well-formed, into the UTF-16 of its code points |
| JsonEncodings.Transcode16To8 | 3rd/rapidjson/encodings.h:657-667 | and back |
| JsonEncodings.ThereAndBack | 3rd/rapidjson/encodings.h:657-667 | well-formed UTF-8 comes back from UTF-16 unchanged |
| JsonPointer.NameParsed | 3rd/rapidjson/pointer.h:900-955 | parsing the encoded form of a name gives the name, followed by a solidus or the end |
| JsonPointer.Encodable | 3rd/rapidjson/pointer.h:1019-1026 | a name has a URI fragment form if and only if it is well-formed UTF-8 |
| JsonPointer.StringifiedParsed | 3rd/rapidjson/pointer.h:862-1032 | parsing the string form of any names, or their URI fragment form, gives the names back |
| JsonPointer.Stringifiable | 3rd/rapidjson/pointer.h:1001-1032 | every list of names has a string form; a URI fragment form if and only if all names are well-formed UTF-8 |
| JsonPointerExamples.CharacterEncoded | 3rd/rapidjson/pointer.h:1000-1032 | for every ASCII character of a name, in either form: a tilde and a solidus are escaped, what is not unreserved is percent-encoded in capitals in a URI fragment, all else stays |
| JsonPointerExamples.SequenceOfName | 3rd/rapidjson/pointer.h:1019-1026 | every other code point is percent-encoded byte by byte in a URI fragment |
| JsonPointerExamples.BetweenLetters | 3rd/rapidjson/pointer.h:862-1032 | a name of a character between two letters, as in the examples of RFC 6901, in both forms and parsed back |
| JsonPointerExamples.ExampleEscapes | 3rd/rapidjson/pointer.h:1000-1032 | the escapes in those examples |
| JsonPointerExamples.StartsWithSolidus | 3rd/rapidjson/pointer.h:876-893 | a pointer that is not empty starts with a solidus, after a number sign in a URI fragment |
| JsonPointerExamples.NoName | 3rd/rapidjson/pointer.h:900-955 | only 0 and 1 follow a tilde; a URI fragment has no character that must be percent-encoded, and two hexadecimal digits follow a percent sign |
| JsonPointer.Stringify | 3rd/rapidjson/pointer.h:1000-1032 | the loop writes that form, or fails when there is none |
| JsonPointerParser.ValidateSequence | 3rd/rapidjson/pointer.h:905-914 | a percent-encoded sequence is decoded into the buffer, never beyond what has been read, even when it turns out to be invalid |
| JsonPointerParser.ParseName | 3rd/rapidjson/pointer.h:896-957 | a name, its terminator and whether it is a number |
| JsonPointerParser.ParseIndex | 3rd/rapidjson/pointer.h:960-978 | the index loop computes the index of the name |
| JsonPointerParser.Pointer.Parse | 3rd/rapidjson/pointer.h:862-992 | the names of the source; they fit with their terminators a buffer of its length, and as many tokens as solidi were counted |
| JsonPointerParser.NamesSlashes | 3rd/rapidjson/pointer.h:871-875 | there are as many names as solidi in the source |
| JsonPointerParser.IndexValue | 3rd/rapidjson/pointer.h:965-978 | the index is the number when it fits 32 bits |
| JsonPointerParser.IndexWrapped | 3rd/rapidjson/pointer.h:959-978 | for every name of digits without leading zeros: no index if the value in 32 bits drops at some digit, otherwise the number modulo 2^32 |
| JsonPointerParser.IndexRight | 3rd/rapidjson/pointer.h:959-978 | the index is the number or none if and only if the number fits 32 bits, the value drops at some digit, or the number modulo 2^32 is the mark for none |
| JsonPointerParser.IndexOfDecimal | 3rd/rapidjson/pointer.h:967-975 | so with one digit too many, wrapping around is noticed if and only if the wrapped value is less than the one before |
| JsonPointerParser.IndexWraps | 3rd/rapidjson/pointer.h:967-975 | a number that does not fit and gets another index |
| JsonPointerTree.CreatedFound | 3rd/rapidjson/pointer.h:461-567 | Get finds what Create has returned if and only if no name "-" has met an array |
| JsonPointerTree.CreateExisting | 3rd/rapidjson/pointer.h:461-507 | Create answers that the value exists if and only if Get finds it before; then nothing changes, otherwise the value is null |
| JsonPointerTree.CreateTwice | 3rd/rapidjson/pointer.h:461-507 | a second Create finds the same value and changes nothing |
| JsonPointerTree.GetOne | 3rd/rapidjson/pointer.h:539-567 | one name leads to a value if and only if it is the first member of that name, or the element whose index it is |
| JsonPointerTree.GetMore | 3rd/rapidjson/pointer.h:539-567 | a pointer that goes on leads to where its rest leads from the value of its front |
| JsonPointerTree.EnterElements | 3rd/rapidjson/pointer.h:461-507 | all elements stay, and nulls are added up to the index; what is no container becomes an array for an index |
| JsonPointerTree.EnterMembers | 3rd/rapidjson/pointer.h:461-507 | all members stay, and one is added behind them if none has the name; all but an object becomes an object for a name that is no index |
| JsonPointerTree.CreateKeeps | 3rd/rapidjson/pointer.h:461-507 | what any path leads to stays with its value, when the path is not on the way to what Create returns and no container on it has become one of the other kind |
| JsonPointerTree.Root.CreateValue | 3rd/rapidjson/pointer.h:461-507 | the loop that changes the tree in place does that |
| JsonPointerTree.Root.GetValue | 3rd/rapidjson/pointer.h:539-567 | the loop that follows the names does that |
| PoolAllocator.Pool.Malloc | 3rd/rapidjson/allocators.h:189-201 | an aligned block of its own inside a chunk, apart from all others, nothing written; null only for no bytes or no chunk |
| PoolAllocator.Pool.Realloc | 3rd/rapidjson/allocators.h:204-235 | a block stays where it is if and only if its space or, at the end of the head chunk, the chunk has room, otherwise it moves; contents are kept and those of all other blocks too; no address asks for a new block |
| PoolAllocator.Pool.AddChunk | 3rd/rapidjson/allocators.h:250-262 | a new chunk in front of the others |
| PoolAllocator.Pool.Clear | 3rd/rapidjson/allocators.h:158-166 | no block is left, and no chunk but the user's |
| PoolAllocator.GrownApart | 3rd/rapidjson/allocators.h:214-223 | aligned blocks stay apart when one of them grows up to its alignment |

## Left out

* The rounds of `process_chunk` are written out in the code; here they are loops over the same table look-ups.
* `DataBuffer` shares its contents between copies (VFSCryptLib/src/DataBuffer.cpp:119-123); buffers here are
  owned by one object.
* In the cipher classes sizes are natural numbers; the int of `add` is modelled where the archive calls it and where
  padding is added.
* AES-128 and AES-192 key expansion, which are easy variants of the one here.
* The one-shot hash for aligned input, which reads the same words; big-endian machines; the canonical form.
* XXH3 beyond 128 bytes, which is a function value here, and its 128-bit hash: they use the product only through its value.
* SSE, NEON and AVX paths and inline assembly other than the multiply-accumulate steps.
* LZ4, the allocation of memory, file handles, mutexes, logging and exceptions with stack traces.
- Archives.Archive.Load: requires that the walk over the entries ends, since a loop that does not has no result; what memory holds where the last entry is torn is a parameter.
- Archives.Archive.Run: sizes stay below 2^31 for payloads and 2^64 for the file, and the header has blocks larger than one byte, since ALIGNTO and the product of sizes wrap around beyond that.
- Archives.Archive.WriteRawData: names end within their field, as wcscpy_s demands.
- Archives.Archive.ReadRawData: the system calls that map the file succeed; what memory holds beyond the end of the file is a parameter.
- ArchiveCopies.CopyFile: the two archives have different files; where the source does not bound what it reads of a block, the block is taken to hold its payload and a name that ends.
* The shared part of `Write` and `WriteRawData` is duplicated in the code and one method here.
* `wcscpy_s` fills the rest of a name in debug builds; the model keeps it.
* An empty vector is indexed at 0 for an empty payload; the model reads nothing.
* Archive pointers that are null, for which `CopyArchive` returns false.
* Error codes and offsets of the JSON parser; the two parsers report different ones for the same text.
* Doubles: their conversion from and to text, NaN and infinity, and numbers as strings or raw numbers.
* `IterativeParseNext`: the same transitions, one token at a time.
* Validation of encodings while parsing or writing, and writers for other encodings than UTF-8.
- JsonReader.Reader.ParsePositiveExponent: beyond 214748055 fraction digits that count the exponent can exceed an int; the model goes on with the number it stands for.
* The 200 characters of the digit table of itoa, which are given by their rule.
- JsonPrinter.PrintedDocument: values without doubles, whose text `dtoa` chooses; dtoa is not part of this model.
- JsonParsed.ParsedDocument: texts below 4 GiB, since member and element counts are kept in 32 bits.
- JsonTree.ReplayedNormal: masks of the code are written as divisions by powers of two.
* Of a stream, taking a character at the end gives a null character and stays there; the decoder of UTF-8 may take
  up to two more in the code when a text ends within a sequence.
* Member and string storage of values: pointers with tags in their upper bits; hash tables there are none.
* JSON Pointer: Set, Swap and Erase, which call Create or Get first; the allocation of tokens.
- PoolAllocator.Pool.Malloc: sizes are natural numbers; within 31 bytes of 2^64 aligning them or adding the chunk header wraps around.
- PoolAllocator.Pool.Realloc: the address is null or that of a live block with its size. The user-supplied buffer is taken as aligned.
* `schema.h`, where equality is by 64-bit hash.
