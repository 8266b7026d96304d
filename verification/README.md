# Verified models of the microgrid controller's own codecs and protocols

The controller carries its own cipher, its two Modbus stacks, its document tree, its frame codec and its shared tables. This
project models these cores in Dafny and proves what they are for. One module stands for a source file or for one part of it;
where the source updates state in place the model is a class or a method over arrays whose contract ties the new state to a
function, and the lemmas are about that function.

- **AES** (`SBox`, `Fips197`, `AesInverse`, `RijndaelTables`, `RijndaelRounds`, `Rijndael`, `BlockModes`, `CfbMode`,
  `RijndaelModes`, `RijndaelClient`, `AesExample`). FIPS 197 is written out as functions; the literal tables, the key schedule loops, the
  table-driven cipher, the modes in place and padding are shown to compute it, and decryption to undo encryption; the
  standard's worked example comes out as printed.
- **Database pages** (`Md5Rounds`, `Md5`, `Md5Example`, `Rc4`, `Codec`). Streaming MD5 against RFC 1321, both RC4 implementations, the
  generator of initial vectors, and the page encryption built from them.
- **CRC-16** (`Crc16`). Three table loops against the bitwise definition.
- **FreeModbus slave** (`ModbusPort`, `ModbusHandlers`, `RtuLink`, `RtuRestart`, `RtuSlave`, `AsciiLink`, `AsciiRun`,
  `AsciiSlave`, `HoldingRegisters`, `FunctionHandlers`, `BitFields`). The link, run and restart modules are state machines over
  frames and polls; the slave modules are the C files' static variables and functions, refining them poll by poll. A C
  assertion that can fail is a modelled outcome (`aborted`, `AssertFails`); the others are preconditions shown at every call.
  The bytes a poll reads and the expiry of the timer are its inputs.
- **libmodbus** (`LibmodbusFraming`, `BitPacking`, `LibmodbusCoils`, `LibmodbusPeers`). Reading messages in pieces of any size,
  and coils end to end: client, line, server, line, client. A line is a byte sequence and the number of bytes each read finds.
- **TinyXml** (`TinyXmlNodes`, `TinyXmlAttributes`, `TinyXmlNewlines`, `TinyXmlString`), **base64** (`Base64`), the **frames between
  controllers** (`Iec103`), the **semaphore** (`SemaphoreProtocol`, every mutex, condition and memory operation a step) and the
  **table of live values** (`MemDb`).

`Octets`, `Options` and `Sequences` hold what several of them use.

## Where the code falls short of what it is for

Each of these is stated exactly, as an if-and-only-if or as the case of a contract.

- Both FreeModbus receivers accept frames of 256 bytes and then fail an assertion on them (`RtuLink.DeliveryOfFrames`,
  `RtuLink.LongestFrameStopsTheProcess`, `AsciiLink.DeliveryOfFrames`, `AsciiRun.FullLineStopsTheSlave`).
- The ASCII timer stays armed in the idle state after a frame that goes wrong between CR and LF, until the next colon, and its
  expiry then fails an assertion, in the same poll or a later one, while listening or sending: exactly then or at a 256 byte
  frame the process stops, in every run (`AsciiRun.StoppedExactlyWhenDerailed`, `AsciiRun.RunStoppedExactlyWhenDerailed`, and
  `AsciiRun.DerailedNowStopsLater` for an input).
- An ASCII frame announced is still in the buffer when the next poll decodes it exactly if no colon followed its LF in the same
  poll (`AsciiLink.AnnouncedIsTheLastCompleted`). Of two lines in one poll only the second is answered
  (`AsciiRun.OnlyTheSecondIsAnswered`). A frame only begun takes the place of the line before it: with the timer run out in that
  poll it is answered although its line never ended (`AsciiRun.UnfinishedFrameIsAnswered`, and `AsciiRun.EveryReplyAnswersARequest`
  for every reply of every run); before that it is executed, exactly if it is a request already, into the buffer it is being
  received into, and its reply is dropped (`AsciiRun.BegunFrameTakesThePlace`, `AsciiRun.ClashesExactly`).
- A FreeModbus slave keeps its transmit state and its event when it is disabled and enabled again. Every run that follows is
  sound, dropping no reply and stopping at no assertion but that on a 256 byte frame it has read, if and only if the transmit
  state is idle and the event asks nothing of this slave (`RtuRestart.RestartIsSound`, `RtuSlave.RtuSlave.Enable`; the phases in
  which disabling is safe: `RtuSlave.RtuSlave.Disable`). A stale transmit state makes the first byte read fail an assertion
  (`RtuRestart.StaleTransmissionStopsTheProcess`), and the reply to a stale request is dropped
  (`RtuRestart.StaleRequestIsNotAnswered`).
- A holding register read is answered for the low byte of its count: as asked exactly if the count is below 256 or the low byte
  0 or above 125 (`HoldingRegisters.ReadCountKept`, `HoldingRegisters.ManyAskedOneAnswered`). A multiple write, and a write and
  read, take values from behind the request exactly if it is shorter than its count needs
  (`HoldingRegisters.WriteDependsOnTheRequest`, `HoldingRegisters.ReadWriteDependsOnTheRequest`,
  `HoldingRegisters.ShortWriteStoresWhatWasThere`). A short write and read is echoed, and one with a bad read range is reported
  after its write was done (`HoldingRegisters.Registers.ReadWriteMultipleHoldingRegister`).
- Removing a function handler hides those registered after it; a second handler for a code is not found, and registering a
  handler again under another code takes its first code away (`FunctionHandlers.RemovalHidesTheRest`,
  `FunctionHandlers.HandlersAfterRegistering`). A value wider than its bit field spills into its neighbours (`BitFields.PutGet`).
- ECB padded decryption fails for lengths that are multiples of 16 (`BlockModes.PaddedRoundTrip`); CBC encrypts one block of a
  shorter input, so that a page shorter than a block is not restored (`RijndaelModes.BlockEncrypt`, `Codec.PageRoundTrip`); CFB1
  goes over the first block of its output again and again instead of on, and does not read its input when it encrypts
  (`RijndaelModes.BlockEncrypt`).
- The libmodbus server writes coils from bytes behind a message exactly if that has fewer values than its count says
  (`LibmodbusCoils.ServedByTheMessageAlone`), and leaves its buffers for counts too large for them (`LibmodbusPeers.Server.Reply`).
- A libmodbus read of no coils out of range is reported as invalid data instead of an illegal address
  (`LibmodbusCoils.ReadOutOfRange`).
- Base64 leaves the length untouched for empty input, so it reports 0 only if it was 0 (`Base64.Base64Encode`). It accepts texts
  that are no encoding, and drops characters and bits of them, exactly if the last group is incomplete or has bits under its pads
  (`Base64.EncodedExactly`, `Base64.HalfAGroupIsLost`, `Base64.BitsUnderPadsAreLost`).
- Linking a child to its parent again leaves pointers that spell out no list (`TinyXmlNodes.LinkedAtEndExactly`,
  `TinyXmlNodes.LinkedAgain`), and linking a node below itself leaves no tree (`TinyXmlNodes.StaysTreeExactly`).
- Appending a TinyXml string to itself reads from a buffer already given up exactly if it has to grow
  (`TinyXmlString.TinyString.Append`).
- A clone of a comment, text, declaration or unknown node loses its children (`TinyXmlNodes.ClonedIsEqual`).
- TinyXml cannot add an attribute while one with an empty name exists (`TinyXmlAttributes.AttributeSet.FindOrCreate`).
- Unpacking a frame that arrived (src/net/slave/UdpManagerServer.cpp:193) reads beyond it exactly if it carries a correctly framed
  body with fewer than 6 bytes, or with fewer than 10 and the type of real-data or control frames (`Iec103.BeyondExactly`,
  `Iec103.FramedBeyondExactly`, `Iec103.EmptyBodyIsBeyond`); packing makes such frames of fewer than two bytes of data
  (`Iec103.PackedBeyondExactly`).
- Frame numbers across the wrap count as newer than each other (`Iec103.NewerThanEachOther`); an empty ASDU body is accepted but
  not packed (`Iec103.RepackedAsdu`).
- Setting a bit in the live table reports success although a waiting command has kept the write out
  (`MemDb.MemDb.SetRealDataBit`), and undoes what other threads wrote to the address between its reading and its writing
  (`MemDb.BitSetIsAtomic`, `MemDb.LostBit`). A number is stored as the kind the address held before the others wrote
  (`MemDb.SetUnknownIsAtomic`).

## Model

| member | source | states |
|---|---|---|
| SBox.SIsFips197SBox | src/etc/sqlite3/rijndael.c:57-76 | every entry of the table S is the substitution FIPS 197 defines: the affine map of the multiplicative inverse in GF(2^8) |
| SBox.S5InvertsS | src/etc/sqlite3/rijndael.c:622-688 | the inverse table undoes S at every byte |
| SBox.SInvertsS5 | src/etc/sqlite3/rijndael.c:622-688 | S undoes the inverse table at every byte |
| Fips197.MulByEncryptionConstants | src/etc/sqlite3/rijndael.c:78-348 | the products by 2 and 3 written with xtime are the field products |
| Fips197.MulBy9And11 | src/etc/sqlite3/rijndael.c:350-620 | the products by 9 and 11 written with xtime are the field products |
| Fips197.MulBy13And14 | src/etc/sqlite3/rijndael.c:350-620 | the products by 13 and 14 written with xtime are the field products |
| RijndaelTables.T1Entries | src/etc/sqlite3/rijndael.c:78-144 | each of the 256 words of T1 is the column of S(x) times 2, 1, 1, 3 |
| RijndaelTables.T2Entries | src/etc/sqlite3/rijndael.c:146-212 | the same for T2, rotated one byte |
| RijndaelTables.T3Entries | src/etc/sqlite3/rijndael.c:214-280 | the same for T3, rotated two bytes |
| RijndaelTables.T4Entries | src/etc/sqlite3/rijndael.c:282-348 | the same for T4, rotated three bytes |
| RijndaelTables.T5Entries | src/etc/sqlite3/rijndael.c:350-416 | each word of T5 is the column of the inverse substitution times 14, 9, 13, 11 |
| RijndaelTables.T6Entries | src/etc/sqlite3/rijndael.c:418-484 | the same for T6, rotated one byte |
| RijndaelTables.T7Entries | src/etc/sqlite3/rijndael.c:486-552 | the same for T7, rotated two bytes |
| RijndaelTables.T8Entries | src/etc/sqlite3/rijndael.c:554-620 | the same for T8, rotated three bytes |
| RijndaelTables.U1Entries | src/etc/sqlite3/rijndael.c:690-756 | each word of U1 is the column of x times 14, 9, 13, 11 |
| RijndaelTables.U2Entries | src/etc/sqlite3/rijndael.c:758-824 | the same for U2, rotated one byte |
| RijndaelTables.U3Entries | src/etc/sqlite3/rijndael.c:826-892 | the same for U3, rotated two bytes |
| RijndaelTables.U4Entries | src/etc/sqlite3/rijndael.c:894-960 | the same for U4, rotated three bytes |
| RijndaelRounds.EncryptColumnsAreRound | src/etc/sqlite3/rijndael.c:1479-1517 | the sums of four table words over the rotating columns are SubBytes, ShiftRows and MixColumns of a round |
| RijndaelRounds.DecryptColumnsAreRound | src/etc/sqlite3/rijndael.c:1555-1592 | the decryption table sums are the inverse substitution, inverse row shift and inverse column mix |
| RijndaelRounds.UTablesAreInvMixColumn | src/etc/sqlite3/rijndael.c:1452-1468 | the sum of the four U tables is InvMixColumns of a word |
| AesInverse.InvMixColumnOfMixColumn | src/etc/sqlite3/rijndael.c:690-960 | the inverse column mix undoes the column mix, for every word |
| AesInverse.InvMixColumnXor | src/etc/sqlite3/rijndael.c:1452-1468 | the inverse column mix distributes over the addition of round keys, which the converted key schedule relies on |
| AesInverse.InvCipherInvertsCipher | src/etc/sqlite3/rijndael.c:1470-1619 | for any number of rounds and any round keys the inverse cipher undoes the cipher |
| AesInverse.EqInvCipherIsInvCipher | src/etc/sqlite3/rijndael.c:1545-1619 | the equivalent inverse cipher on converted keys computes the straightforward inverse cipher (FIPS 197, section 5.3.5) |
| AesInverse.DecryptionInvertsEncryption | src/etc/sqlite3/rijndael.c:1470-1619 | the equivalent inverse cipher on the converted keys undoes the cipher, for every block and key sequence |
| Rijndael.Rijndael.Init | src/etc/sqlite3/rijndael.c:983-1051 | error code for each unsupported argument; otherwise the cipher is ready with the schedule of the key, whose words have its bytes in order, converted when it is to decrypt, and the initial vector, zeros if none |
| Rijndael.KeyBytesInOrder | src/etc/sqlite3/rijndael.c:1042 | every word of a key has its four bytes of it, the first as the highest, for keys of any length |
| AesExample.SixWords | src/etc/sqlite3/rijndael.c:1411-1436 | for keys of six words: the seventh word is rotated, substituted and has the constant added, no other before the thirteenth is |
| AesExample.EightWords | src/etc/sqlite3/rijndael.c:1424-1436 | for keys of eight words: the ninth word is rotated, substituted and has the constant added, the thirteenth is substituted only, no other up to the sixteenth is either |
| AesExample.RoundKeys | src/etc/sqlite3/rijndael.c:1372-1450 | the eleven round keys of that example are the ones printed |
| AesExample.ExampleOfFips197 | src/etc/sqlite3/rijndael.c:1372-1619 | the worked example of FIPS 197, appendix C.1: all round keys, the state of every round and the ciphertext are the ones printed, and decryption gives the plaintext back |
| AesExample.ExampleAsBytes | src/etc/sqlite3/rijndael.c:983-1543 | on the bytes of key and block: the cipher of 00 11 .. ff under the key 00 01 .. 0f is 69 c4 e0 .. 5a, as FIPS 197 prints it |
| Rijndael.Rijndael.KeySched | src/etc/sqlite3/rijndael.c:1372-1450 | the row-filling loops end with round key r, word t equal to word 4r+t of the FIPS 197 section 5.2 expansion, for 16, 24 and 32 byte keys |
| Rijndael.Rijndael.FillRows | src/etc/sqlite3/rijndael.c:1393-1407 | the nested filling loops store consecutive words at consecutive places of the rows and stop where rows or words run out |
| Rijndael.Rijndael.NextColumns | src/etc/sqlite3/rijndael.c:1411-1436 | the words held become the next ones of the expansion, byte by byte in place |
| Rijndael.NextKeyWord | src/etc/sqlite3/rijndael.c:1417-1436 | the expansion's recurrence, for the columns behind the first |
| Rijndael.FirstOfNextColumns | src/etc/sqlite3/rijndael.c:1411-1415 | the expansion's recurrence for the first column: rotated, substituted, with the round constant |
| Rijndael.RconTableIsXPower | src/etc/sqlite3/rijndael.c:962-968 | each of the thirty round constants is the power of x the standard asks for |
| Rijndael.Rijndael.KeyEncToDec | src/etc/sqlite3/rijndael.c:1452-1468 | in place, every round key but the first and last goes through InvMixColumns |
| Rijndael.Rijndael.Encrypt | src/etc/sqlite3/rijndael.c:1470-1543 | the output block is the FIPS 197 cipher of the input block under the stored keys, other bytes unchanged, also when both are one buffer |
| Rijndael.Rijndael.Decrypt | src/etc/sqlite3/rijndael.c:1545-1619 | the output block is the equivalent inverse cipher of the input block under the stored keys, also in place |
| BlockModes.DecryptBlocksInvertsEncryptBlocks | src/etc/sqlite3/rijndael.c:1066-1092 | ECB and CBC decryption under the same key and vector restore every message of blocks |
| BlockModes.EncryptedExactly | src/etc/sqlite3/rijndael.c:1066-1092 | the ciphertext is the one sequence of blocks in which each is the cipher of its plaintext block, in CBC with the ciphertext block before it, or the vector, added |
| BlockModes.UnpadPad | src/etc/sqlite3/rijndael.c:1328-1356 | removing the padding gives the message back exactly if the mode is not ECB or the length is no multiple of 16 |
| BlockModes.PadExactly | src/etc/sqlite3/rijndael.c:1139-1195 | the padding fills the last block with 1 to 16 bytes, each the number of them |
| BlockModes.UnpadExactly | src/etc/sqlite3/rijndael.c:1328-1356 | which decrypted bytes give which message: those that end with as many bytes of the value of their number, 1 to 16 in CBC, 1 to 15 in ECB, and in ECB the whole of what ends with zero; all others are reported corrupt |
| BlockModes.PaddedRoundTrip | src/etc/sqlite3/rijndael.c:1139-1364 | padded decryption restores a padded, encrypted message exactly if the mode is not ECB or its length is no multiple of 16 |
| RijndaelModes.BlockEncrypt | src/etc/sqlite3/rijndael.c:1053-1137 | return value for each case; the blocks written are the ECB or CBC encryption of the blocks read, also in place, where CBC takes one block even of a shorter input; in mode CFB1 the first block of the output buffer alone goes through as many passes as the input has blocks, whatever the input is |
| RijndaelModes.BlockDecrypt | src/etc/sqlite3/rijndael.c:1197-1292 | return value for each case, the direction mattering in ECB and CBC only; the blocks written are the ECB or CBC decryption of the blocks read, also in place; in mode CFB1 the first block of the output goes through the passes fed by the input or, in place, by itself |
| RijndaelModes.PadEncrypt | src/etc/sqlite3/rijndael.c:1139-1195 | return value for each case, CFB1 being refused; the output is the encryption of the padded message |
| RijndaelModes.PadDecrypt | src/etc/sqlite3/rijndael.c:1294-1364 | return value for each case, CFB1 being refused; the output is the decrypted message without its padding, or the data are reported corrupt |
| CfbMode.BitsOfShifted | src/etc/sqlite3/rijndael.c:1112-1127 | the sixteen byte shifts are the standard's register: all bits but the first move up and the fed back bit is put in last |
| CfbMode.EncryptedBit | src/etc/sqlite3/rijndael.c:1103-1129 | a bit of the ciphertext is that of the plaintext, changed if the cipher of the last 128 bits of vector and ciphertext begins with a one |
| CfbMode.DecryptedBit | src/etc/sqlite3/rijndael.c:1258-1284 | a bit deciphered is that of the buffer, changed if the cipher of the last 128 bits of vector and bits fed begins with a one |
| CfbMode.DecryptBitsInvertsEncryptBits | src/etc/sqlite3/rijndael.c:1093-1284 | bits enciphered where they lie are restored by deciphering them where they lie, for every register and key |
| CfbMode.OneBlockRoundTrip | src/etc/sqlite3/rijndael.c:1093-1284 | one pass one way and one back restore the block |
| CfbMode.EncryptPass | src/etc/sqlite3/rijndael.c:1103-1129 | the loop over 128 bits enciphers the block in the buffer bit by bit and leaves the register after its ciphertext |
| CfbMode.DecryptPass | src/etc/sqlite3/rijndael.c:1258-1284 | the loop adds the key stream of the input's bits to the output's, also when both are one buffer |
| RijndaelClient.ThereAndBack | src/etc/sqlite3/rijndael.c:983-1292 | with a key of any of the three lengths, any vector and any mode: setting up, enciphering whole blocks in place and deciphering them gives back every byte, in mode CFB1 for one block |
| RijndaelClient.PaddedThereAndBack | src/etc/sqlite3/rijndael.c:983-1364 | with any key and vector a padded, enciphered message comes back with its length exactly if the mode is not ECB or the length is no multiple of 16 |
| Codec.ModMult | src/etc/sqlite3/codec.c:414 | the product with 40692 modulo 2147483399 of every non-negative int, no step of it leaving 32 bits |
| Codec.GenerateInitialVector | src/etc/sqlite3/codec.c:416-431 | the vector is the MD5 of sixteen bytes that are, low byte first, four successive values of the generator that starts behind the page number |
| Codec.GeneratedPower | src/etc/sqlite3/codec.c:414-431 | the generator's n-th value is the n-th power of 40692 times the seed, modulo 2147483399 |
| Codec.Codec.MakePageKey | src/etc/sqlite3/codec.c:446-465 | the page key is the MD5 of 24 bytes: the key, the page number low byte first, and 73 41 6c 54 |
| Codec.Codec.InitForPage | src/etc/sqlite3/codec.c:446-478 | the cipher is keyed with the MD5 of a text of key, page number and salt, and its vector is the MD5 of the page's vector text |
| Codec.KeyTextsDiffer | src/etc/sqlite3/codec.c:446-458 | different keys, and different pages, have different texts |
| Codec.ScheduleOfText | src/etc/sqlite3/codec.c:446-465 | the round keys of a page are those of the digest of its key text, which alone decides them |
| Codec.ChainOfText | src/etc/sqlite3/codec.c:416-431 | the block a page's chain starts from is the digest of its vector text |
| Codec.PageRoundTrip | src/etc/sqlite3/codec.c:704-715 | decrypting under the key and page number used for encrypting restores every byte if the page is empty or has a block at least; a shorter page it restores exactly if the block it leads is a fixed point of the cipher |
| Codec.Codec.CodecAES | src/etc/sqlite3/codec.c:433-487 | in place, the whole blocks of a page become their CBC encryption or decryption under the page's key and vector; the bytes after them stay; of a page shorter than a block encryption takes a whole block and decryption none |
| Codec.Codec.Encrypt | src/etc/sqlite3/codec.c:703-709 | a page is enciphered in place with the write or the read key |
| Codec.Codec.Decrypt | src/etc/sqlite3/codec.c:711-715 | a page is deciphered in place with the read key |
| Md5Rounds.TransformIsCompress | src/etc/sqlite3/codec.c:265-346 | the unrolled code with its shortened Boolean forms computes the sixty-four steps of RFC 1321 section 3.4 |
| Md5Rounds.MixesAgree | src/etc/sqlite3/codec.c:250-254 | the four auxiliary functions equal the ones of the standard |
| Md5Rounds.StepAgrees | src/etc/sqlite3/codec.c:256-258 | one line of the code is one step of the standard, whichever register it updates |
| Md5.BitCount | src/etc/sqlite3/codec.c:204-211 | the two-word counter with its carry counts bits modulo 2^64, for any chunk length below 2^32 |
| Md5.FoldConcat | src/etc/sqlite3/codec.c:233-246 | folding a message in whole-block pieces is folding it at once |
| Md5.Context.Update | src/etc/sqlite3/codec.c:200-247 | after any chunks, the state, the buffered tail and the counter are those of their concatenation |
| Md5.ContextsAgree | src/etc/sqlite3/codec.c:200-247 | contexts fed the same message in different pieces are alike |
| Md5.Context.Final | src/etc/sqlite3/codec.c:145-187 | the digest is that of everything fed in, padded and extended by its length as in RFC 1321 sections 3.1 and 3.2, in one block or two |
| Md5.GetMD5Binary | src/etc/sqlite3/codec.c:397-404 | the digest of a buffer in one go |
| Md5.InitialBytes | src/etc/sqlite3/codec.c:189-198 | the registers start as the bytes 01 23 .. 32 10 of section 3.3 |
| Md5.WordsExactly | src/etc/sqlite3/codec.c:200-247 | a block's words are read low byte first, in order |
| Md5.PaddedExactly | src/etc/sqlite3/codec.c:145-187 | padding is one byte 80, the fewest zeros that make whole blocks, and the length in bits modulo 2^64, low byte first |
| Md5Example.ExampleOfRfc1321 | src/etc/sqlite3/codec.c:189-346 | the digest of abc is the one printed in appendix A.5 of RFC 1321: 90 01 50 98 .. 7f 72 |
| Rc4.CodecRC4 | src/etc/sqlite3/codec.c:358-395 | the output is the input added to the key stream of the RC4 key schedule and generator |
| Rc4.Arc4.Setup | src/etc/xyssl/arc4.c:35-58 | the table is the same permutation the one-shot form schedules, by a wrapping key index |
| Rc4.Arc4.Crypt | src/etc/xyssl/arc4.c:63-86 | the buffer is added to the key stream in place, and the context goes on from there |
| Rc4.SwapKeepsPermutation | src/etc/xyssl/arc4.c:74-78 | the table stays a permutation of the byte values |
| Rc4.ScheduleSteps | src/etc/xyssl/arc4.c:45-57 | at step n the index moves on by the n-th entry and the n-th key byte, the key repeated, and the two entries change over |
| Rc4.IndicesTellTheKey | src/etc/xyssl/arc4.c:45-57 | every byte of a key matters: two keys of one length, up to 256, whose schedules take the same indices are the same |
| Rc4.StreamSteps | src/etc/xyssl/arc4.c:72-80 | one step: the indices move on by 1 and by the entry found, the two entries change over, the entry at their sum is put out |
| Rc4.SecondByteStays | src/etc/xyssl/arc4.c:63-86 | the bias of Mantin and Shamir: after a key schedule that leaves 0 as the third entry and not 2 as the second, the second byte of every text stays as it is |
| Rc4.CryptTwice | src/etc/xyssl/arc4.c:63-86 | the cipher applied twice from the same state gives the text back |
| Rc4.CryptInPieces | src/etc/xyssl/arc4.c:63-86 | a text enciphered in two calls is enciphered as by one, so the twin implementations agree |
| Crc16.UsMBCRC16 | src/etc/freemodbus1.5/mbcrc.c:84-98 | the table loop computes the reflected 0xA001 CRC from 0xFFFF, bit by bit, of any bytes |
| Crc16.Crc16 | src/etc/libmodbus/modbus-rtu.cpp:131-146 | the same CRC with its bytes swapped |
| Crc16.CheckCrc16 | src/util/Check.cpp:67-83 | the third copy computes the same CRC |
| Crc16.TableEntries | src/etc/freemodbus1.5/mbcrc.c:34-82 | the two tables hold the halves of eight bit steps of every byte |
| Crc16.TableStep | src/etc/freemodbus1.5/mbcrc.c:92-96 | one turn of the table loop is one byte of the bitwise definition |
| Crc16.ResidueIsZeroExactlyWhenSealed | src/etc/freemodbus1.5/mbrtu.c:160-161 | a frame's CRC is zero exactly if its last two bytes are the CRC of the rest, low byte first |
| Crc16.AdjacentChangeIsDetected | src/etc/freemodbus1.5/mbcrc.c:84-98 | any change of a frame of any length confined to two adjacent bytes changes its CRC |
| Crc16.CrcFromConcat | src/etc/freemodbus1.5/mbcrc.c:84-98 | the CRC goes on over a concatenation |
| Crc16.CrcOfResponse | src/etc/freemodbus1.5/mbcrc.c:84-98 | the checksum of 01 03 02 00 05 is 4778 |
| RtuLink.DeliveryOfFrames | src/etc/freemodbus1.5/mbrtu.c:150-222 | a sealed frame is decoded to its address and PDU exactly for PDUs of 1 to 252 bytes, and stops the process by an assertion from 253 on |
| RtuLink.AcceptedExactly | src/etc/freemodbus1.5/mbrtu.c:150-184 | nothing but a sealed frame is accepted |
| RtuLink.ExecutedExactly | src/etc/freemodbus1.5/mb.c:357-370 | what a slave executes is exactly the sealed frames with a PDU of 1 to 252 bytes to its address or to 0; the process stops exactly at frames of 256 bytes and more |
| RtuLink.NotHeard | src/etc/freemodbus1.5/mbrtu.c:226-283 | before the start, and behind a frame too long, bytes are not heard |
| RtuLink.ReceiveFrame | src/etc/freemodbus1.5/mbrtu.c:226-283 | an idle receiver fed a frame of at most 256 bytes holds exactly it |
| RtuLink.FrameArrives | src/etc/freemodbus1.5/mbrtu.c:226-355 | however reads cut a frame, with the timer expiring after its last byte it has arrived as sent |
| RtuLink.RequestIsAnswered | src/etc/freemodbus1.5/mb.c:331-412 | however a frame was cut, four further polls of a quiet line write exactly its response if it is a request to this slave, and nothing if not, and the slave listens again |
| RtuLink.EveryReplyAnswersARequest | src/etc/freemodbus1.5/mb.c:331-412 | in every run, a reply that is being sent is the response to a sound request to this slave that had arrived two polls before |
| RtuLink.GatheredWasRead | src/etc/freemodbus1.5/mbrtu.c:226-283 | in every run, the bytes in the receiver are the last bytes read |
| RtuLink.LongestFrameStopsTheProcess | src/etc/freemodbus1.5/mbrtu.c:157 | a sealed frame with the longest PDU of 253 bytes fails the assertion at its reception |
| ModbusHandlers.ResponseFits | src/etc/freemodbus1.5/mb.c:371-404 | with handlers that leave at most 253 bytes, and one at least when they succeed, every response, error replies included, has 1 to 253 bytes |
| RtuLink.FrameLength | src/etc/freemodbus1.5/portserial.c:43 | a transmission has three bytes more than its PDU |
| RtuSlave.RtuSlave.EventPost | src/etc/freemodbus1.5/portevent.c:38-44 | the one slot takes the event; whether one was overwritten is recorded |
| RtuSlave.RtuSlave.SerialEnable | src/etc/freemodbus1.5/portserial.c:65-90 | one direction at most is enabled and its buffer position reset |
| RtuSlave.RtuSlave.ReceiveFSM | src/etc/freemodbus1.5/mbrtu.c:226-283 | one byte is handled as the receiver of the link machine does, and the timer stays armed exactly outside the idle state; in the transmit state the assertion fails |
| RtuSlave.RtuSlave.TransmitFSM | src/etc/freemodbus1.5/mbrtu.c:286-321 | one byte moves to the serial buffer, or the end is announced and the line turned round; bytes sent plus bytes to send stay the frame |
| RtuSlave.RtuSlave.TimerT35Expired | src/etc/freemodbus1.5/mbrtu.c:324-355 | expiry starts the slave, announces the frame or drops the error, and leaves the receiver idle with the timer off, also in a stale transmit state |
| RtuSlave.RtuSlave.Receive | src/etc/freemodbus1.5/mbrtu.c:151-184 | the outcome is the decoding of the bytes in the buffer |
| RtuSlave.RtuSlave.Send | src/etc/freemodbus1.5/mbrtu.c:187-223 | from an idle receiver the PDU in the buffer is framed and sending starts; otherwise the reply is dropped, counted, and nothing changes |
| RtuSlave.RtuSlave.ReceiveAll | src/etc/freemodbus1.5/portserial.c:292-317 | all bytes of all reads reach the receiver in order, or the first of them stops the process exactly in the transmit state |
| RtuSlave.RtuSlave.TransmitAll | src/etc/freemodbus1.5/portserial.c:318-331 | the drain loop ends and writes exactly the frame that was pending |
| ModbusHandlers.Lookup | src/etc/freemodbus1.5/mb.c:372-386 | the reply is that of the first handler in the table registered for the code, or, if there is none before the first empty entry, illegal function with the request unchanged |
| ModbusHandlers.DispatchedExactly | src/etc/freemodbus1.5/mb.c:372-386 | for every table and request: the handler run is the one of the request's code with no other of that code and no empty entry before it, and none if there is no such one |
| ModbusHandlers.ResponseExactly | src/etc/freemodbus1.5/mb.c:371-404 | the response is what the handler registered for the code leaves, or in two bytes the code with its top bit set and the exception, which is 1 if there is no such handler |
| ModbusHandlers.LeavesExactly | src/etc/freemodbus1.5/mb.c:371-404 | the buffer is left as the handler of the code leaves it, but for the two bytes of an error reply, which broadcasts do not get |
| ModbusHandlers.ExecuteRequest | src/etc/freemodbus1.5/mb.c:371-404 | the whole buffer: behind the address what the handlers leave, which begins with the response unless the request was sent to all, and the bytes beyond that as they were |
| RtuSlave.RtuSlave.Poll | src/etc/freemodbus1.5/mb.c:332-412 | one poll of the enabled slave, with or without anything left over, is one step of the extended machine and keeps the invariant: half duplex, transmitting only when receiver idle, timer armed exactly outside idle, no event overwritten; dropped replies are counted |
| RtuSlave.RtuSlave.Enable | src/etc/freemodbus1.5/mb.c:292-307 | enabling starts the restarted machine, all of whose runs are sound exactly if the transmit state is idle, no request to this slave is queued for execution, and a queued frame decodes to none and without assertion |
| RtuSlave.RtuSlave.Disable | src/etc/freemodbus1.5/mb.c:310-329 | what is left over is what the phase says, and can be restarted soundly exactly if that was listening, started, sent, a frame not asking this slave, or a broadcast being executed |
| RtuSlave.RtuSlave.PollingThread | src/etc/freemodbus1.5/freemodbus.cpp:121-143 | a whole run, whatever was left over, writes exactly the transcript of the machine, drops as many replies and stops the process exactly where that does; after a harmless leftover no reply is dropped and nothing stops it before a 256 byte frame was read |
| RtuRestart.RestartIsSound | src/etc/freemodbus1.5/mb.c:292-329 | for every transmit state and queue: every run after a restart drops no reply and stops only after reading 256 bytes if and only if the transmit state is idle and the queued event, with the decoding of its frame, asks nothing of this slave |
| RtuRestart.HarmlessDelaysTheStart | src/etc/freemodbus1.5/mb.c:332-412 | after one poll, or two for a broadcast frame, a harmless leftover is gone and the run is a first run |
| RtuRestart.StaleTransmissionStopsTheProcess | src/etc/freemodbus1.5/mbrtu.c:231 | at a stale transmit state one byte read fails the assertion |
| RtuRestart.StaleTransmissionSilencesTheSlave | src/etc/freemodbus1.5/mbrtu.c:226-283 | from a stale transmit state no run ever writes or listens again |
| RtuRestart.StaleRequestIsNotAnswered | src/etc/freemodbus1.5/mbrtu.c:196-221 | a stale request is executed, its reply dropped and nothing written, and the slave then starts as usual |
| RtuRestart.SafeToStopExactly | src/etc/freemodbus1.5/mb.c:310-329 | in which phases a slave may be disabled for its next run to be sound, both directions |
| RtuRestart.NormalRun | src/etc/freemodbus1.5/mb.c:332-412 | with nothing left over the extended machine runs as the link machine |
| AsciiLink.CharOfNibble | src/etc/freemodbus1.5/mbascii.c:434-469 | a nibble's character converts back to it and is no control character |
| AsciiLink.DigitOf | src/etc/freemodbus1.5/mbascii.c:452-469 | the digits are 0 to 9 and A to F |
| AsciiLink.DigitsExactly | src/etc/freemodbus1.5/mbascii.c:434-450 | the sixteen digits and no other characters have a value; the others count as 0xFF |
| AsciiLink.LineExactly | src/etc/freemodbus1.5/mbascii.c:331-408 | a line is a colon, the digits of each byte, high one first, CR and LF |
| AsciiLink.LrcOfAppend | src/etc/freemodbus1.5/mbascii.c:471-484 | a frame sums to zero exactly if its last byte is the check of the rest |
| AsciiLink.SumsToZero | src/etc/freemodbus1.5/mbascii.c:471-484 | the bytes of a frame with its check add up to a multiple of 256 |
| AsciiLink.ChangedByteIsRejected | src/etc/freemodbus1.5/mbascii.c:151-182 | a frame in which any one byte has changed is rejected |
| AsciiLink.SelfSynchronising | src/etc/freemodbus1.5/mbascii.c:221-328 | from any state of the receiver the characters of a frame leave exactly the frame in the buffer, the receiver idle, and complete once |
| AsciiLink.DeliveryOfFrames | src/etc/freemodbus1.5/mbascii.c:151-218 | a frame is decoded to its address and PDU exactly for PDUs of 1 to 253 bytes, and fails the assertion exactly from 254 on |
| AsciiLink.AcceptedExactly | src/etc/freemodbus1.5/mbascii.c:151-182 | nothing but a frame with its check is accepted |
| AsciiLink.LineIsReceived | src/etc/freemodbus1.5/mbascii.c:151-408 | whatever came before, a PDU sent to an address is received for it, once |
| AsciiLink.FullLineStopsTheProcess | src/etc/freemodbus1.5/mbascii.c:157 | a line with a PDU of 254 bytes is completed and decoding it fails the assertion, from any state of the receiver |
| AsciiLink.OverlongLineIsDropped | src/etc/freemodbus1.5/mbascii.c:254-277 | a longer frame is given up when the buffer is full and its line never completed |
| AsciiLink.TwoLinesInOneRead | src/etc/freemodbus1.5/mbascii.c:297-306 | two transmissions in one read complete twice and leave the second in the buffer |
| AsciiLink.LineLength | src/etc/freemodbus1.5/portserial.c:43 | a transmission has 2n+7 characters and fits the 513 byte port buffer exactly up to PDUs of 253 bytes |
| AsciiLink.TimerAlwaysCovers | src/etc/freemodbus1.5/mbascii.c:221-328 | while a frame is being received the timer is armed |
| AsciiLink.IdleTimerArmedExactlyWhenDerailed | src/etc/freemodbus1.5/mbascii.c:307-311 | for every receiver, the timer runs in the idle state, where its expiry fails an assertion, exactly after a frame whose CR was followed by neither LF nor colon, or if it ran there already, with no colon since |
| AsciiLink.DerailedInThree | src/etc/freemodbus1.5/mbascii.c:307-311 | colon, CR and any character but LF and colon leave the timer running in the idle state |
| AsciiLink.CompletesExactlyAtLines | src/etc/freemodbus1.5/mbascii.c:221-328 | whatever the characters, a frame is completed exactly where such a line ends |
| AsciiLink.LineCompletes | src/etc/freemodbus1.5/mbascii.c:221-328 | in any state of the receiver a colon, at most 512 characters with neither colon nor CR, CR and LF complete a frame, whose bytes are what the pairs of characters make up |
| AsciiLink.RestartsAtColon | src/etc/freemodbus1.5/mbascii.c:236-311 | from a colon on nothing that came before it matters, in any state of the receiver |
| AsciiLink.KeptExactlyWithoutColon | src/etc/freemodbus1.5/mbascii.c:236-311 | characters that complete nothing leave an idle receiver with fewer than 256 bytes as it was exactly if there is no colon among them |
| AsciiLink.AnnouncedIsTheLastCompleted | src/etc/freemodbus1.5/mbascii.c:222-328 | of the characters of any poll that complete a frame of fewer than 256 bytes: what the receiver holds afterwards is the last frame completed exactly if no colon follows its LF |
| AsciiRun.RequestIsAnswered | src/etc/freemodbus1.5/mb.c:331-412 | whatever was on the line before and however a line is cut, four further polls of a quiet line write exactly the line of its response if it asks this slave, and nothing if not, and the slave listens again |
| AsciiRun.LineArrives | src/etc/freemodbus1.5/mbascii.c:221-328 | from any state of a listening slave the polls that read a line end with its frame announced, and write nothing |
| AsciiRun.ExecutedExactly | src/etc/freemodbus1.5/mb.c:357-370 | what a slave executes is exactly the frames with their check and a PDU of 1 to 253 bytes to its address or to 0; the process stops exactly at a frame of 256 bytes |
| AsciiRun.EveryReplyAnswersARequest | src/etc/freemodbus1.5/mb.c:331-412 | in every run, a line that is being sent is the response to a request to this slave that it held three polls before, when a line had ended among the characters read; the request is the last such line's exactly if no colon followed its LF, and otherwise what stood behind the last colon, of a line that had not ended and whose time had run out or that had gone wrong |
| AsciiRun.CompletedLineWasHeard | src/etc/freemodbus1.5/mbascii.c:221-328 | in every run in which no request was executed during a reception, a frame completed is the body of a line, colon to LF, that the characters read since the timer last gave up a frame end with, wherever the polls cut it |
| AsciiRun.FullLineStopsTheSlave | src/etc/freemodbus1.5/mbascii.c:157 | however cut, a line with a PDU of 254 bytes stops the process at the next poll |
| AsciiRun.StoppedExactlyWhenDerailed | src/etc/freemodbus1.5/mbascii.c:410-431 | in every phase and for every receiver a poll stops the process exactly if the timer expires with the receiver idle and derailed, in this poll or in an earlier one with no colon since, while listening or sending; or if the frame to be decoded has 256 bytes |
| AsciiRun.RunStoppedExactlyWhenDerailed | src/etc/freemodbus1.5/mb.c:331-412 | after every run from the start, the next poll stops the process exactly if the timer expires, while listening or sending, after characters read since the start or the last frame given up that derailed, with no colon since; or if the frame to be decoded has 256 bytes |
| AsciiRun.ReceiverOfHeard | src/etc/freemodbus1.5/mb.c:331-412 | in every run the receiver's state and timer are what the characters read since the start, or since the timer last gave up a frame, make of a fresh receiver |
| AsciiRun.DerailedNowStopsLater | src/etc/freemodbus1.5/mbascii.c:410-431 | a colon, CR and any character but LF and colon, read by one poll, stop the process in a later quiet poll in which the timer expires |
| AsciiRun.OnlyTheSecondIsAnswered | src/etc/freemodbus1.5/portserial.c:292-317 | of two lines found by one poll only the second is answered, whatever the first asks |
| AsciiRun.BegunFrameTakesThePlace | src/etc/freemodbus1.5/mbascii.c:222-328 | while the timer runs, a frame begun behind a complete line makes the slave decode what has arrived of it instead; nothing is written, and the slave goes on receiving it, with what the handlers left in the shared buffer exactly if that part is already a request |
| AsciiRun.UnfinishedFrameIsAnswered | src/etc/freemodbus1.5/mbascii.c:410-431 | with the timer run out in the same poll the frame begun, which no LF ended, is executed and answered exactly if it is a request, and the line before it is not |
| AsciiRun.ClashesExactly | src/etc/freemodbus1.5/mbascii.c:191-217 | in every run, a request is executed while another frame is being received, so that its reply is dropped, exactly if two polls before a line ended among the characters read, the timer did not expire, and what was being received behind it is by itself a request |
| AsciiRun.AlikeReceive | src/etc/freemodbus1.5/mbascii.c:222-328 | what an idle receiver has left in its buffer affects nothing it receives later |
| AsciiSlave.AsciiSlave.Start | src/etc/freemodbus1.5/mbascii.c:130-140 | the receiver is enabled and idle and the start announced |
| AsciiSlave.AsciiSlave.LrcOf | src/etc/freemodbus1.5/mbascii.c:471-484 | the loop computes the check of a stretch of the buffer |
| AsciiSlave.AsciiSlave.Receive | src/etc/freemodbus1.5/mbascii.c:152-182 | the outcome is the decoding of the bytes in the buffer, or the assertion for a full one |
| AsciiSlave.AsciiSlave.Send | src/etc/freemodbus1.5/mbascii.c:185-219 | from an idle receiver what remains to be sent is the line of the framed PDU; otherwise the reply is dropped, counted, and nothing changes |
| AsciiSlave.AsciiSlave.ReceiveFSM | src/etc/freemodbus1.5/mbascii.c:222-328 | one character is handled as the link machine does, and a completed frame announced |
| AsciiSlave.AsciiSlave.TransmitFSM | src/etc/freemodbus1.5/mbascii.c:331-408 | one character moves to the buffer, the steps left decrease, and characters out plus characters to come stay the line; at the end it is announced and the line turned round |
| AsciiSlave.AsciiSlave.TimerT1SExpired | src/etc/freemodbus1.5/mbascii.c:411-431 | expiry gives up the frame; in the idle state the assertion fails |
| AsciiSlave.AsciiSlave.ReceiveAll | src/etc/freemodbus1.5/portserial.c:292-317 | all characters reach the receiver; an announcement is lost exactly if two frames complete before the queue is read |
| AsciiSlave.AsciiSlave.TransmitAll | src/etc/freemodbus1.5/portserial.c:318-331 | the drain loop ends and writes exactly the line |
| AsciiSlave.AsciiSlave.TimerPoll | src/etc/freemodbus1.5/porttimer.c:62-84 | an expired timer gives the frame up, or stops the process in the idle state |
| AsciiSlave.AsciiSlave.Poll | src/etc/freemodbus1.5/mb.c:332-412 | one poll of the enabled slave is one step of the ASCII machine, also where it executes a request in the buffer another frame is being received into; an announcement is lost exactly when two frames complete in it, a dropped reply is counted, and the invariant holds |
| AsciiSlave.AsciiSlave.PollingThread | src/etc/freemodbus1.5/freemodbus.cpp:121-143 | a whole run writes exactly the transcript of the machine, drops as many replies, loses an announcement exactly if that does and stops the process exactly where that does |
| HoldingRegisters.WrittenIsRead | src/etc/freemodbus1.5/freemodbus.cpp:193-232 | bytes written to a range of registers are read back from it and the registers around it are kept |
| HoldingRegisters.Registers.HoldingCB | src/etc/freemodbus1.5/freemodbus.cpp:193-232 | refused exactly if some register is not there; otherwise the registers, or the bytes, are the high-byte-first image of the others |
| HoldingRegisters.Registers.WriteHoldingRegister | src/etc/freemodbus1.5/mbfuncholding.c:76-105 | which register gets which value and which exception is returned, for every frame |
| HoldingRegisters.Registers.WriteMultipleHoldingRegister | src/etc/freemodbus1.5/mbfuncholding.c:109-165 | for every frame: exception, registers afterwards and the response of five bytes; the values are the bytes behind the head, received or not |
| HoldingRegisters.WriteDependsOnTheRequest | src/etc/freemodbus1.5/mbfuncholding.c:109-165 | a multiple write is the same for all buffers that hold the request exactly if its length and count are refused, its range is not there, or its length is at least 6 + 2n |
| HoldingRegisters.ShortWriteStoresWhatWasThere | src/etc/freemodbus1.5/mbfuncholding.c:115-139 | a request of six bytes for one register stores the two bytes that lay behind it |
| HoldingRegisters.Registers.ReadHoldingRegister | src/etc/freemodbus1.5/mbfuncholding.c:169-230 | for every frame: exception, or the response with the registers for the low byte of the count; no register changes and the response stays within 253 bytes |
| HoldingRegisters.Registers.ReadWriteMultipleHoldingRegister | src/etc/freemodbus1.5/mbfuncholding.c:234-306 | registers are written and then read; a request below ten bytes is echoed without exception, and a bad read range is reported after the write was done |
| HoldingRegisters.ReadWriteDependsOnTheRequest | src/etc/freemodbus1.5/mbfuncholding.c:234-306 | a write and read is the same for all buffers that hold the request exactly if it writes nothing or its length is at least 10 + 2w |
| HoldingRegisters.ReadCountKept | src/etc/freemodbus1.5/mbfuncholding.c:184-217 | a read request has the outcome of its 16-bit count exactly if that is below 256 or its low byte is 0 or above 125 |
| HoldingRegisters.ManyAskedOneAnswered | src/etc/freemodbus1.5/mbfuncholding.c:184-186 | asked for 0x0101 registers, which is too many, the slave answers with one |
| HoldingRegisters.ReadAnswers | src/etc/freemodbus1.5/mbfuncholding.c:169-230 | a read is answered with code, byte count and each register asked for, high byte first, or refused, for its count before its range |
| HoldingRegisters.MultipleWriteStores | src/etc/freemodbus1.5/mbfuncholding.c:109-165 | a multiple write stores each pair of bytes behind its head, high one first, in the register asked for, changes no other and is confirmed with its first five bytes; every refusal with its exception |
| HoldingRegisters.WriteAndReadStores | src/etc/freemodbus1.5/mbfuncholding.c:234-306 | a write and read stores first, register for register, and answers from the registers as stored; every refusal with its exception and what has been stored by then |
| HoldingRegisters.ReadBackAnswers | src/etc/freemodbus1.5/mbfuncholding.c:109-230 | a read of the range that a multiple write has stored answers with the bytes written |
| FunctionHandlers.RegisteringMakesNoHoles | src/etc/freemodbus1.5/mb.c:225-270 | while nothing is removed the used entries of the handler table stay a prefix |
| FunctionHandlers.HandlersAfterRegistering | src/etc/freemodbus1.5/mb.c:225-270 | for every handler, in the table or not: it is found under its code exactly if it got an entry and none before that has the code; another code is handled as before exactly unless its entry was this handler's |
| FunctionHandlers.RegisteringKeepsUnique | src/etc/freemodbus1.5/mb.c:233-244 | while nothing is removed no handler gets two entries |
| FunctionHandlers.RemovalHidesTheRest | src/etc/freemodbus1.5/mb.c:225-270 | after a removal only the codes of the entries before it are found, and the table keeps its prefix exactly if there were none behind it |
| FunctionHandlers.DispatchedIsFirst | src/etc/freemodbus1.5/mb.c:372-386 | in a table without holes the look-up finds the first entry of a code |
| FunctionHandlers.FunctionHandlers.RegisterCB | src/etc/freemodbus1.5/mb.c:225-270 | which entry changes to what, and the status, for every code and handler |
| BitFields.PutGet | src/etc/freemodbus1.5/mbutils.c:46-114 | a field put is got again with all other bits kept exactly if the value has no more bits than the field |
| BitFields.JoinedBytes | src/etc/freemodbus1.5/mbutils.c:74-82 | the word's low byte is the first |
| BitFields.BitOfField | src/etc/freemodbus1.5/mbutils.c:85-114 | bit k of a field is bit pre + k of the word, for the bits it has |
| BitFields.SetBits | src/etc/freemodbus1.5/mbutils.c:46-83 | the two bytes hold the field as put, no other byte changes |
| BitFields.GetBits | src/etc/freemodbus1.5/mbutils.c:85-114 | the field of the two bytes, no larger than its bits allow |
| LibmodbusFraming.FrameIsReceived | src/etc/libmodbus/modbus.cpp:264-518 | a sealed self-delimiting frame followed by anything is received whole, and nothing of what follows it is read |
| LibmodbusFraming.DelimitsExactly | src/etc/libmodbus/modbus.cpp:264-349 | for every function code which PDUs tell their own length, written out as bytes: requests of five bytes, of counted values and of a code alone; responses of counted values, of five bytes and of two |
| LibmodbusFraming.EveryMessageIsReceived | src/etc/libmodbus/modbus.cpp:264-518 | every request and response of the protocol up to 253 bytes is received as sent, and nothing behind it read |
| LibmodbusFraming.RegisterIsReceived | src/etc/libmodbus/modbus.cpp:264-349 | the response 01 03 02 00 05 78 47 to reading one register is received as seven bytes |
| LibmodbusFraming.SealedIsFrame | src/etc/libmodbus/modbus-rtu.cpp:155-162 | what libmodbus seals FreeModbus decodes to the same address and PDU |
| LibmodbusFraming.SendMsgPre | src/etc/libmodbus/modbus-rtu.cpp:155-162 | the message gets its CRC, low byte first on the wire |
| LibmodbusFraming.CheckIntegrity | src/etc/libmodbus/modbus-rtu.cpp:291-319 | a message is accepted exactly if it is sealed |
| LibmodbusFraming.SealedExactly | src/etc/libmodbus/modbus-rtu.cpp:291-319 | a message is sealed exactly if its checksum over all of it is zero |
| LibmodbusFraming.Advance | src/etc/libmodbus/modbus.cpp:473-501 | what is to be read next follows from the function code and the head, or the message is too long |
| LibmodbusFraming.ReceiveMsg | src/etc/libmodbus/modbus.cpp:364-518 | for any non-empty short reads the outcome and the bytes consumed depend on the stream alone: exactly the first message; anything else happens only to an incomplete stream or an ending or empty read |
| BitPacking.UnpackPack | src/etc/libmodbus/modbus.cpp:1411-1428 | unpacking packed flags gives them back, for any number of them |
| BitPacking.BitByShift | src/etc/libmodbus/modbus.cpp:681-708 | bit j is worth 2 to the j |
| BitPacking.PackedBit | src/etc/libmodbus/modbus.cpp:681-708 | flag i is bit i % 8 of byte i / 8, and the bits beyond the last flag are zero |
| BitPacking.ResponseIoStatus | src/etc/libmodbus/modbus.cpp:681-707 | the bytes appended are the cells eight to a byte, which must hold 0 or 1 |
| BitPacking.PackBits | src/etc/libmodbus/modbus.cpp:1411-1428 | the bytes written are the flags eight to a byte, by the walking bit of the source |
| BitPacking.SetBitsFromBytes | src/etc/libmodbus/modbus-data.cpp:42-55 | exactly the cells of the range become the bits of the bytes, as 0 or 1 |
| BitPacking.UnpackBits | src/etc/libmodbus/modbus.cpp:1186-1200 | the destination gets the bits of the response, no more than asked for |
| LibmodbusCoils.WriteIsServed | src/etc/libmodbus/modbus.cpp:967-993 | a write in range sets exactly the coils asked for and is confirmed with their number |
| LibmodbusCoils.WriteOutOfRange | src/etc/libmodbus/modbus.cpp:971-981 | a write beyond the coils changes none and comes back as an illegal address |
| LibmodbusCoils.ReadIsServed | src/etc/libmodbus/modbus.cpp:754-776 | a read in range changes nothing, is confirmed, and carries the coils' values |
| LibmodbusCoils.ReadOutOfRange | src/etc/libmodbus/modbus.cpp:539-643 | a read beyond the coils comes back as an illegal address exactly if it asked for at least one coil, and as invalid data otherwise |
| LibmodbusCoils.WriteRequestBytes | src/etc/libmodbus/modbus.cpp:1384-1441 | a request to write is slave, 0F, address and number, high byte first, number of bytes, and flag i as bit i % 8 of byte 7 + i / 8 |
| LibmodbusCoils.ReadRequestBytes | src/etc/libmodbus/modbus-rtu.cpp:106-118 | a request to read is slave, 01, address and number, high byte first |
| LibmodbusCoils.ReadResponseBytes | src/etc/libmodbus/modbus.cpp:754-776 | the answer to a read is slave, code, number of bytes, and coil i of those asked for as bit i % 8 of byte 3 + i / 8 |
| LibmodbusCoils.SingleWriteIsServed | src/etc/libmodbus/modbus.cpp:908-942 | a write of one coil switches it on for FF00 and off for 0000, changes no other and comes back; another address or value is refused with its exception and changes nothing |
| LibmodbusCoils.OtherSlaveIsSilent | src/etc/libmodbus/modbus.cpp:730-752 | a request for another slave changes nothing and gets no answer |
| LibmodbusCoils.ConfirmedExactly | src/etc/libmodbus/modbus.cpp:539-643 | for every function code a response is confirmed exactly if it has the code, the length and the number of values asked for |
| LibmodbusCoils.WrittenIsRead | src/etc/libmodbus/modbus.cpp:754-993 | what was written is read back whatever else was there, and the coils around are kept |
| LibmodbusCoils.RequestsDelimit | src/etc/libmodbus/modbus.cpp:264-349 | every request about coils tells its own length |
| LibmodbusCoils.ResponsesDelimit | src/etc/libmodbus/modbus.cpp:264-349 | every response to one tells its own length and fits a frame |
| LibmodbusCoils.RequestIsServed | src/etc/libmodbus/modbus.cpp:730-993 | a request whose counts agree overruns no buffer, and what lies behind it in the buffer has no part in its outcome |
| LibmodbusCoils.ServedByTheMessageAlone | src/etc/libmodbus/modbus.cpp:967-993 | the outcome of a message depends on the message alone, and not on what lies behind it, exactly if it does not make the server write more coils than it has bytes of values for |
| LibmodbusPeers.Server.Reply | src/etc/libmodbus/modbus.cpp:730-993 | for every message about coils as receive_msg delimits it: whether it overruns the response or the request buffer, and otherwise the coil table and the sealed response; cells stay 0 or 1 |
| LibmodbusPeers.Server.ReceiveAndReply | src/etc/libmodbus/modbus.cpp:364-518 | a request on the wire is served once, or not at all when reading it failed |
| LibmodbusPeers.Client.WriteBits | src/etc/libmodbus/modbus.cpp:1384-1443 | confirmed means written; the server never changes any other coil; over a working line the call is confirmed exactly if the range exists |
| LibmodbusPeers.Client.ReadBits | src/etc/libmodbus/modbus.cpp:1158-1223 | confirmed means that the destination holds the server's coils; over a working line exactly which error is reported otherwise |
| LibmodbusPeers.Client.Transact | src/etc/libmodbus/modbus.cpp:169-210 | a request is sent, served and its response checked, whatever the two lines do to their reads |
| TinyXmlNodes.SpliceKeepsConsistent | src/etc/tinyxml/tinyxml.cpp:186-358 | replacing at most one child by at most one node, with the pointers of neighbours and parent set accordingly, keeps every list and parent pointer of the whole set of nodes right |
| TinyXmlNodes.PlacesDiffer | src/etc/tinyxml/tinyxml.cpp:186-358 | no node is twice in a list |
| TinyXmlNodes.Node.LinkEndChild | src/etc/tinyxml/tinyxml.cpp:186-211 | the pointers of all nodes afterwards, whatever they were; the list of a node that was in none has it as its last child; a document is refused |
| TinyXmlNodes.LinkedAtEndExactly | src/etc/tinyxml/tinyxml.cpp:186-211 | linking at the end keeps the pointers of all nodes consistent exactly if the node had no parent and is not the new parent itself |
| TinyXmlNodes.LinkedAgain | src/etc/tinyxml/tinyxml.cpp:186-211 | after a child was linked again to its parent there is no list of children that the pointers spell out |
| TinyXmlNodes.GraftingGrafts | src/etc/tinyxml/tinyxml.cpp:186-358 | an edit of one node's children changes every tree around it in just that place, and no other tree |
| TinyXmlNodes.StaysTreeExactly | src/etc/tinyxml/tinyxml.cpp:186-211 | linking in a node that has a tree of its own leaves its new parent the root of a tree exactly if that was not within it, and then every tree is what it was with the new one at the end of the parent's children |
| TinyXmlNodes.Node.InsertBeforeChild | src/etc/tinyxml/tinyxml.cpp:230-260 | a clone of the tree comes right before the given child, nothing else changes; every tree among the nodes, the document's too, is what it was but for that place; null and no change for a foreign child or a document |
| TinyXmlNodes.Node.InsertAfterChild | src/etc/tinyxml/tinyxml.cpp:263-293 | a clone of the tree comes right after the given child, nothing else changes; every tree among the nodes, the document's too, is what it was but for that place; null and no change for a foreign child or a document |
| TinyXmlNodes.Node.ReplaceChild | src/etc/tinyxml/tinyxml.cpp:296-332 | a clone of the tree takes the place of the child, which leaves the tree; nothing else changes; every tree among the nodes, the document's too, is what it was but for that place |
| TinyXmlNodes.Node.RemoveChild | src/etc/tinyxml/tinyxml.cpp:335-358 | the child leaves the list, the others keep their order; every tree among the nodes, the document's too, is what it was but for that place; null is refused, and another node's child by an assertion, with no change |
| TinyXmlNodes.Node.FirstChildWith | src/etc/tinyxml/tinyxml.cpp:361-370 | the first child with the value, none if there is none |
| TinyXmlNodes.Node.LastChildWith | src/etc/tinyxml/tinyxml.cpp:373-382 | the last child with the value, none if there is none |
| TinyXmlNodes.Node.IterateChildren | src/etc/tinyxml/tinyxml.cpp:385-396 | from each child to the next, so that the children are visited once each in order |
| TinyXmlNodes.Node.Clone | src/etc/tinyxml/tinyxml.cpp:853-900 | a deep copy of nodes that did not exist before, consistent by themselves, amounting to the tree that was copied; only elements and documents bring their children |
| TinyXmlNodes.ClonedIsEqual | src/etc/tinyxml/tinyxml.cpp:853-900 | a clone equals its original exactly if in that only elements and documents have children |
| TinyXmlString.CopiesAreBounded | src/etc/tinyxml/tinystr.cpp:68-78 | building a string by appending alone copies at most three times its length, however it is cut |
| TinyXmlString.AppendsArePaid | src/etc/tinyxml/tinystr.cpp:68-78 | over appends, what was copied stays within length plus capacity, and the capacity within twice the length |
| TinyXmlString.TinyString.Reserve | src/etc/tinyxml/tinystr.cpp:37-46 | room is made and the contents kept |
| TinyXmlString.TinyString.Assign | src/etc/tinyxml/tinystr.cpp:49-65 | the contents are replaced, also by a part of themselves, terminated, in a buffer neither too small nor far too big |
| TinyXmlString.TinyString.Append | src/etc/tinyxml/tinystr.cpp:68-78 | the characters, also the string's own, come behind the contents, terminated, at the cost stated; they are read from a buffer given up exactly if they are the string's own and do not fit |
| TinyXmlAttributes.WithoutKth | src/etc/tinyxml/tinyxml.cpp:1529-1545 | linking a ring node's neighbours to each other leaves a ring of the others in order |
| TinyXmlAttributes.AttributeSet.Find | src/etc/tinyxml/tinyxml.cpp:1572-1580 | the attribute of the name with its value in the map, or null exactly if there is none |
| TinyXmlAttributes.AttributeSet.Add | src/etc/tinyxml/tinyxml.cpp:1514-1527 | the attribute comes last in the ring and its name is added to the map |
| TinyXmlAttributes.AttributeSet.Remove | src/etc/tinyxml/tinyxml.cpp:1529-1545 | the attribute leaves ring and map |
| TinyXmlAttributes.AttributeSet.FindOrCreate | src/etc/tinyxml/tinyxml.cpp:1583-1592 | the attribute of the name, made with no value if missing; the assertion fails exactly if it is missing while an attribute with an empty name exists |
| TinyXmlAttributes.AttributeSet.SetAttribute | src/etc/tinyxml/tinyxml.cpp:780-786 | map update, names staying unique, with the same exception |
| TinyXmlAttributes.AttributeSet.GetAttribute | src/etc/tinyxml/tinyxml.cpp:1572-1580 | map lookup |
| TinyXmlAttributes.AttributeSet.RemoveAttribute | src/etc/tinyxml/tinyxml.cpp:437-450 | map removal, also of a missing name |
| TinyXmlNewlines.EveryConventionIsRead | src/etc/tinyxml/tinyxml.cpp:1052-1075 | a text written with LF, CR or CR LF is read back as it was |
| TinyXmlNewlines.MixedConventionsAreRead | src/etc/tinyxml/tinyxml.cpp:1052-1075 | so is a text that mixes them, up to the first NUL, if no CR comes before the LF of an empty line |
| TinyXmlNewlines.NormalizedTwice | src/etc/tinyxml/tinyxml.cpp:1052-1075 | normalising again changes nothing |
| TinyXmlNewlines.NoCarriageReturnStays | src/etc/tinyxml/tinyxml.cpp:1052-1075 | no carriage return is left |
| TinyXmlNewlines.NormalizeInPlace | src/etc/tinyxml/tinyxml.cpp:1052-1075 | the in-place loop leaves the normalised text, terminated, and never overruns its read head |
| Base64.EncodingDecodes | src/etc/xyssl/base64.c:58-113 | the encoding of any bytes is well-formed, has the reported length and decodes to them |
| Base64.EncMapIsAlphabet | src/etc/xyssl/base64.c:27-36 | the characters are A to Z, a to z, 0 to 9, + and /, in this order |
| Base64.SameBits | src/etc/xyssl/base64.c:79-94 | three bytes and the four values of their characters are the same 24 bits |
| Base64.BrokenTextDecodes | src/etc/xyssl/base64.c:121-180 | so does the encoding with line breaks in it |
| Base64.BreakInserted | src/etc/xyssl/base64.c:130-135 | putting LF or CR LF anywhere but inside a CR LF keeps it such a text |
| Base64.EncodedExactly | src/etc/xyssl/base64.c:58-180 | a text is the encoding of what it decodes to exactly if it is well-formed, its length a multiple of 4, and the bits of its last value that no byte takes are zero |
| Base64.HalfAGroupIsLost | src/etc/xyssl/base64.c:160-177 | QQ is accepted and decodes to nothing |
| Base64.BitsUnderPadsAreLost | src/etc/xyssl/base64.c:160-177 | QR== decodes as QQ== does |
| Base64.Base64Encode | src/etc/xyssl/base64.c:58-113 | every outcome: nothing for empty input, the size needed if the buffer is too small, else the encoding and a terminator |
| Base64.Base64Decode | src/etc/xyssl/base64.c:121-180 | every outcome: refused exactly if malformed, nothing for text without characters, the size needed if the buffer is too small, else the bytes |
| Base64.Scan | src/etc/xyssl/base64.c:128-147 | the first loop accepts exactly well-formed text and counts its characters |
| Base64.DecodeBytes | src/etc/xyssl/base64.c:160-177 | the second loop puts out the bytes of all groups, as many as pads allow |
| Base64.FourShifted | src/etc/xyssl/base64.c:165-174 | the accumulator's old contents never reach the output |
| Iec103.VariableAccepted | src/net/Iec103.cpp:420-465 | a variable-length ASDU is accepted with a body exactly if it is the framing of that body |
| Iec103.RepackedAsdu | src/net/Iec103.cpp:328-474 | an accepted ASDU is packed again byte for byte exactly if its body is not empty |
| Iec103.SumIsAdded | src/net/Iec103.cpp:366-375 | the checksum is the sum of the body's bytes modulo 256 |
| Iec103.ChangedByteIsRefused | src/net/Iec103.cpp:420-465 | a variable-length ASDU in which any one byte behind the first has changed is refused |
| Iec103.FixedAccepted | src/net/Iec103.cpp:398-419 | a fixed-length ASDU is accepted with its body exactly if that is two bytes and its framing is the first five, whatever follows |
| Iec103.HeadRoundTrip | src/net/Iec103.cpp:476-575 | a head in range is recovered with its length, and what follows it |
| Iec103.HeadLayout | src/net/Iec103.cpp:476-519 | which byte of the head is which field, two-byte numbers low byte first |
| Iec103.BodyLayout | src/net/Iec103.cpp:23-52 | for every kind of frame which bit of the control byte is which field, and which byte is address, type, qualifier, cause and function type, followed by the data |
| Iec103.AsduLayout | src/net/Iec103.cpp:328-380 | a body stands between 10 and checksum and 16, or between 68, its length low byte first, 68 and checksum and 16 |
| Iec103.FrameRoundTrip | src/net/Iec103.cpp:23-166 | time and confirm frames, and real-data and control frames with two bytes of data at least, are unpacked to the fields they carry, continuous real data giving up their first two bytes as the start address; with fewer, unpacking reads beyond the frame |
| Iec103.BeyondExactly | src/net/Iec103.cpp:61-166 | of all strings of bytes unpacking reads beyond exactly those that hold a head and the variable-length framing of such a body |
| Iec103.FramedBeyondExactly | src/net/Iec103.cpp:61-166 | under any head, unpacking reads beyond the framing of a body exactly if that has fewer than 6 bytes, or fewer than 10 and the type of real-data or control frames |
| Iec103.PackedBeyondExactly | src/net/Iec103.cpp:23-166 | of what Pack makes, whatever the fields, unpacking reads beyond exactly the real-data and control frames with fewer than two bytes of data |
| Iec103.EmptyBodyIsBeyond | src/net/Iec103.cpp:85-166 | a head and a correctly framed ASDU without a body make unpacking read beyond the frame |
| Iec103.HeadAlone | src/net/Iec103.cpp:53-83 | a head without data is unpacked as a frame without type |
| Iec103.PackAsdu | src/net/Iec103.cpp:328-380 | the bytes of the ASDU, none for an empty body |
| Iec103.UnpackAsdu | src/net/Iec103.cpp:382-474 | the body and format, or refusal |
| Iec103.PackHead | src/net/Iec103.cpp:476-519 | the fourteen bytes of the head and the data |
| Iec103.UnpackHead | src/net/Iec103.cpp:521-575 | the fields of the head and the data, or refusal |
| Iec103.Pack | src/net/Iec103.cpp:23-59 | the bytes of every kind of frame |
| Iec103.UnpackFrame | src/net/Iec103.cpp:61-166 | the outcome for every string of bytes, including those the source reads beyond the end of |
| Iec103.LaterIsNewer | src/net/Iec103.cpp:168-190 | a number some increments later counts as newer exactly without a wrap, or across it from above 60000 to below 10000 |
| Iec103.NewerForSure | src/net/Iec103.cpp:168-190 | up to 5535 increments count as newer from every number, and no more do |
| Iec103.NewerThanEachOther | src/net/Iec103.cpp:168-176 | two numbers count as newer than each other exactly across the wrap |
| Iec103.DataNumber | src/net/Iec103.cpp:179-190 | numbers go round modulo 65536 |
| SemaphoreProtocol.StepKeepsInvariant | src/etc/socket/Buffer.cpp:29-58 | every step of every thread keeps: value minus the number of holders, one holder at most, the mutex with the one thread inside, no lost wake-up, an exact counter |
| SemaphoreProtocol.EveryRunKeepsInvariant | src/etc/socket/Buffer.cpp:29-58 | in every state of every run of any number of threads all of this holds |
| SemaphoreProtocol.MutualExclusion | src/etc/socket/TcpServer.cpp:116-118 | no two threads are between -- and ++ at once, and no increment of the counter is lost |
| SemaphoreProtocol.WakeUpKept | src/etc/socket/Buffer.cpp:43-58 | while the semaphore is free and a thread sleeps, another is on its way to it or about to signal |
| SemaphoreProtocol.NoDeadlock | src/etc/socket/TcpServer.cpp:177-179 | as long as a thread is under way, one that is awake can take a step |
| MemDb.AddressesAreIndependent | src/db/MemDb.cpp:239-262 | in any interleaving each address sees its own operations, in order |
| MemDb.CommandWaits | src/db/MemDb.cpp:239-262 | after any run without another command or reading, a command still waits with its value exactly if at most five telemetry writes came; from the sixth on the last of them is stored |
| MemDb.TakenCellAccepts | src/db/MemDb.cpp:143-161 | after a command has been taken the next telemetry write is stored at once |
| MemDb.CountersBounded | src/db/MemDb.cpp:239-262 | no run lets a counter pass five |
| MemDb.BitIsSet | src/db/MemDb.cpp:264-273 | the bit gets its value and no other bit changes |
| MemDb.MemDb.GetRealDataWrited | src/db/MemDb.cpp:143-161 | a waiting command is given, and taken if asked |
| MemDb.MemDb.SetCell | src/db/MemDb.cpp:239-262 | the write is stored or, while a command waits, dropped and counted; no other address changes |
| MemDb.MemDb.SetRealDataUnknown | src/db/MemDb.cpp:192-205 | the number is stored, after whatever other threads did in between, as the kind the address held before that, and other addresses are as the others left them |
| MemDb.SetUnknownIsAtomic | src/db/MemDb.cpp:192-205 | that equals storing it at once after the others, as the kind then there, exactly if the others left a value of the same kind or a waiting command keeps a write that is no command out |
| MemDb.SignedValue | src/db/MemDb.cpp:192-205 | an int becomes the real number its 32 bits are in two's complement |
| MemDb.UnknownIsStored | src/db/MemDb.cpp:192-262 | unless a waiting command keeps it out, the cell becomes the number given in the kind the address had, marked as command or telemetry, with no writes kept out; otherwise only that count goes up |
| MemDb.MemDb.SetRealDataBit | src/db/MemDb.cpp:264-273 | the bit is set in the value read before other threads had their turn and written after; success is reported even where the write is dropped: it is stored exactly if no command then waits or five writes were kept out already |
| MemDb.BitSetIsAtomic | src/db/MemDb.cpp:264-273 | setting a bit around any operations of others has the effect of setting it at once after them exactly if they leave an integer there and either no other bit of it changed or a command waits and drops the write |
| MemDb.UndisturbedBitSet | src/db/MemDb.cpp:264-273 | so it has if the others only take commands from the address |
| MemDb.LostBit | src/db/MemDb.cpp:264-273 | of two bits of an address set at the same time the one written first is lost |

## Left out

- RtuSlave.RtuSlave.Poll: failing serial reads and writes, and the contents of the handlers, which are functions from request to reply here, in a table that does not change during a run; that the register handlers keep to the length they promise is `HoldingRegisters`.
- AsciiSlave.AsciiSlave.PollingThread: enabling with something left over from an earlier run, which is `RtuRestart` for RTU; handlers that write beyond the reply they report.
- RijndaelModes.BlockEncrypt: buffers that overlap at different places.
- RijndaelClient.ThereAndBack: what several passes over one block in mode CFB1 come to, which depends on the cipher's values.
- Codec.Codec.CodecAES: page number 0x7FFFFFFF and above, and the AES-256 variant with SHA-256; key derivation from passwords.
- Md5.Context.Update: words are read low byte first as on the little-endian hosts the source casts for; wiping the context.
- LibmodbusPeers.Server.Reply: function codes other than the three about coils; what happens after a buffer was overrun.
- LibmodbusFraming.ReceiveMsg: select time-outs are reads that do not happen; error recovery by reconnecting and flushing; the TCP backend.
- TinyXmlNodes.Node.Clone: attributes, user data, locations and the document's settings, which are copied field by field; running out of memory.
- TinyXmlNodes.Node.ReplaceChild: a deleted node is one without parent, what is below it stays with it; the document's error fields.
- TinyXmlAttributes.AttributeSet.FindOrCreate: typed attribute values and printing.
- MemDb.MemDb.SetRealDataUnknown: the rounding of the conversion from int to float; time stamps; previous values.
- Iec103.UnpackFrame: log output; what is read beyond a frame, and what becomes of the fields then.
- SemaphoreProtocol.StepKeepsInvariant: `operator-=` and reading the value, which the callers modelled do not use; fairness of the scheduler.
- Rc4.CodecRC4: output that overlaps the input at another place, and empty keys.
- Base64.Base64Encode: inputs of 2^28 bytes and more, where the size computation overflows.
- HoldingRegisters.Registers.HoldingCB: input registers, coils and discrete inputs, whose callbacks only refuse.
- Register contents in libmodbus replies and the block read of the live table, whose output depends on one cell's flag.
- Database, history, devices, filters and statistics: thin layers over SQLite, serial lines and floating point.
- TinyXmlString.TinyString.Append: what is read from a buffer given up; the shared empty buffer is one of each string's own here.
- Parsing and printing of XML, the other file and network helpers: I/O, or easy beside the rest.
- Sockets, threads, shared memory, clocks and logging.
