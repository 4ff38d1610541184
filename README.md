# telegram-decoder: the decode pipeline, modelled in Dafny

This project models the core of telegram-decoder. The decoder turns the
output of a radio demodulator into tram telegrams. The model covers
`Decoder` in src/decoder/mod.rs and the BCD and R09 field parsing in
src/decoder/structs.rs. The pipeline has these stages:

1. **Demodulation.** The bit stream comes in groups of nine: eight data
   bits, least significant first, then one separator bit. At most 21
   bytes are taken (`Demod`).
2. **Syndrome.** `crc16_remainder` computes the remainder of the frame,
   read as a polynomial over GF(2), modulo the generator 0x16f63
   (`Gf2`, `Crc`). The model defines this residue once as a function
   (`Crc.Residue`) and proves it linear over XOR.
3. **Error-correction tables.** `Decoder::new` builds one table for each
   frame length 5 to 21. Each table maps a syndrome to the error pattern
   that causes it (`Tables`, `TableFacts`):
   - every one-bit and two-bit pattern is entered, and a collision between
     them is the source's `assert!(false)`;
   - below length 14, three-bit patterns whose syndrome the lower tiers do
     not already claim are kept when only one pattern has that syndrome;
     a syndrome two such patterns share is blacklisted.
4. **Framing.** Every candidate length L from 5 up to two less than the
   number of bytes is tried (`Framing`, `Decoding.Frame`):
   - the first L bytes are copied and their two check bytes inverted;
   - a zero syndrome means the frame is valid;
   - a syndrome found in the table names the error pattern to XOR away;
   - any other syndrome yields nothing.
5. **Classification.** `parse_telegram` and `parse_r09` decide on each
   repaired payload (`Dispatch`):
   - mode 9 with R09 type 1 and length 6 becomes an R09.16 record, when its
     BCD fields are decimal (`Telegrams`);
   - other modes, unrepaired and of an admissible length, become raw
     telegrams.

The decoder object (`Decoding.Decoder`) holds the seventeen tables. Its
two output channels are modelled as the sequences of everything sent to
the R09 senders and to the raw senders. `Decoding.Decoded` states what one
call of `decode` sends.

The main properties proved (`DecoderFacts`, `Framing`, `TableFacts`,
`Miscorrection`):

- Tables:
  - a table exists exactly when its one- and two-bit syndromes are distinct;
  - it repairs every one-bit and every two-bit error;
  - its three-bit entries are exactly the unambiguous three-bit syndromes,
    and a three-bit error with such a syndrome is repaired;
  - some three-bit errors are repaired into a wrong payload that checks
    (see below).
- Framing:
  - a repaired frame always checks;
  - a valid R09 frame at the head of the stream reaches the R09 channel,
    also with one or two bits flipped.
- Output:
  - at most one R09 record is sent per call, and only from the 11-byte
    candidate;
  - raw telegrams come only from frames that check unrepaired;
  - the tables for lengths 20 and 21 are never consulted.

The source's shifts and masks by constants (`>>`, `<<`, `&`) are written
as division and remainder by powers of two. Bytes are integers 0 to 255.
XOR is defined bit by bit on natural numbers (`Bits.Xor`).

## Model

| member | source | states |
|---|---|---|
| Demod.BitToBytes | src/decoder/mod.rs:301-315 | the byte assembled from eight bit values has bit b set exactly when the b-th value is non-zero, least significant first; any other number of values gives 0 |
| Demod.ByteOfBitsBits | src/decoder/mod.rs:301-315 | bit b of the assembled byte is set exactly when data[b] is non-zero |
| Demod.Demodulate | src/decoder/mod.rs:150-157 | the demodulation loop yields min(21, n / 9) bytes for n input bits, byte i built from bits 9i to 9i+7 |
| Demod.DemodulatedBits | src/decoder/mod.rs:152-157 | bit b of demodulated byte i is set exactly when input bit 9i+b is non-zero |
| Demod.SeparatorIgnored | src/decoder/mod.rs:152-157 | two streams that differ only in the ninth bit of each group, or after the 21st group, demodulate alike |
| Crc.Crc16Remainder | src/decoder/mod.rs:317-333 | the nested loop over bytes from the end and bits from the top computes the residue: the sum of alpha^(8i+j) over the set bits, reduced modulo 0x16f63 |
| Crc.ResidueLinear | src/decoder/mod.rs:317-333 | the residue of the XOR of two frames is the sum of their residues |
| Crc.ResidueOfZeros | src/decoder/mod.rs:317-333 | an all-zero frame has residue 0 |
| Crc.ResidueOfOneByte | src/decoder/mod.rs:323-329 | a frame with one non-zero byte at index k has the residue of that byte's bits at offset 8(n-1-k) |
| Crc.SingleBitSyndrome | src/decoder/mod.rs:43-49 | the one-bit pattern at bit q has residue alpha^(8(n-1-q/8)+7-q%8), never 0 |
| Tables.ErrorPattern | src/decoder/mod.rs:89-98 | the zero vector of len bytes with bit p%8 of byte p/8 flipped for each listed position p |
| Tables.SingleBitTier | src/decoder/mod.rs:43-56 | the one-bit loop inserts each one-bit pattern under its syndrome in order, and fails exactly when a syndrome repeats |
| Tables.TwoBitTier | src/decoder/mod.rs:59-77 | after the one-bit loop, the two-bit loop fills the table that inserting all one- and two-bit patterns in order gives, or fails as that does |
| Tables.ThreeBitTable | src/decoder/mod.rs:82-120 | the three-bit loop yields the three-bit map that the blacklist rule gives over all triples i<j<k in order |
| Tables.BuildTable | src/decoder/mod.rs:39-124 | one table of `new`: empty when error correction is disabled, otherwise the one- and two-bit tier, extended below length 14 by the three-bit map, or nothing on a collision |
| Tables.InsertAllSpec | src/decoder/mod.rs:43-77 | inserting a sequence of patterns succeeds exactly when their syndromes are pairwise distinct, and the table then holds every pattern under its own syndrome and nothing else |
| Tables.InsertAllFailed | src/decoder/mod.rs:51-52 | once an insertion has collided, further insertions cannot undo the failure |
| Tables.Run3Spec | src/decoder/mod.rs:100-117 | after a run of triples, a syndrome of the lower tiers is neither kept nor blacklisted; any other syndrome is kept exactly when one triple produces it, under that triple, and blacklisted exactly when two or more do |
| Tables.Run3BlacklistGrows | src/decoder/mod.rs:105-109 | the blacklist only grows |
| Tables.BlacklistedNeverKept | src/decoder/mod.rs:105-115 | a blacklisted syndrome is never kept later |
| TableFacts.SingleTried | src/decoder/mod.rs:43-47 | every one-bit pattern is among those tried |
| TableFacts.PairTried | src/decoder/mod.rs:59-67 | every two-bit pattern a<b is among those tried |
| TableFacts.TripleTried | src/decoder/mod.rs:86-98 | every three-bit pattern a<b<c is among those tried |
| TableFacts.BuiltTableFails | src/decoder/mod.rs:43-77 | building fails exactly when two one- or two-bit patterns share a syndrome |
| TableFacts.BuiltTableEntry | src/decoder/mod.rs:39-124 | every entry is a len-byte pattern with one to three bits set, filed under its own syndrome; three only below length 14 |
| TableFacts.LowerTierKept | src/decoder/mod.rs:104-123 | the three-bit extension never displaces a one- or two-bit entry |
| TableFacts.SingleCorrected | src/decoder/mod.rs:43-56 | every one-bit error's syndrome is in the table, mapped to that error |
| TableFacts.PairCorrected | src/decoder/mod.rs:59-77 | every two-bit error's syndrome is in the table, mapped to that error |
| TableFacts.ThreeBitKept | src/decoder/mod.rs:82-124 | below length 14, the table holds a three-bit pattern under v exactly when v is no one- or two-bit syndrome and exactly one triple has syndrome v |
| TableFacts.ThreeBitCorrected | src/decoder/mod.rs:82-124 | a triple whose syndrome is no one- or two-bit syndrome and is shared by no other triple is in the table under that syndrome |
| Framing.BuiltTableFiled | src/decoder/mod.rs:186-187 | a built table's entries have the frame's length and are filed under their own syndrome, so the length `assert_eq!` holds |
| Framing.FramedBytes | src/decoder/mod.rs:168-173 | the frame is the first L bytes with the last two XORed with 0xff |
| Framing.CandidateSpec | src/decoder/mod.rs:175-204 | a length yields a candidate exactly when its syndrome is 0 or in the table; then the payload is the first L-2 bytes of the possibly repaired frame, 0 bits repaired on a zero syndrome |
| Framing.RepairChecks | src/decoder/mod.rs:190-198 | XORing the pattern the table names makes the syndrome 0, so the second `assert_eq!` holds |
| Framing.CandidateCount | src/decoder/mod.rs:200-203 | with a built table, the number of repaired bits is at most 3, and 0 exactly when the frame's syndrome is 0 |
| Framing.ValidFrameAccepted | src/decoder/mod.rs:177-183 | a valid frame yields its payload with nothing repaired |
| Framing.PatternRepaired | src/decoder/mod.rs:186-203 | a valid frame hit by an error pattern that the table files under its syndrome is restored, with the pattern's bit count as repaired bits |
| Framing.SingleBitRepaired | src/decoder/mod.rs:186-203 | a valid frame with one bit flipped is restored, with 1 bit repaired |
| Framing.TwoBitsRepaired | src/decoder/mod.rs:186-203 | a valid frame with two bits flipped is restored, with 2 bits repaired |
| Framing.TripleSyndromeNonZero | src/decoder/mod.rs:58-77 | once the table is built, three flipped bits never have syndrome 0, since a pair and a single bit never share one |
| Framing.ThreeBitsRepaired | src/decoder/mod.rs:186-203 | below length 14, a valid frame with three bits flipped whose syndrome is unambiguous is restored, with 3 bits repaired |
| Framing.PairMiscorrects | src/decoder/mod.rs:186-203 | any error with the syndrome of a pair is repaired as that pair: the payload is that of the sent frame XOR the error XOR the pair, with 2 bits repaired |
| Miscorrection.CodewordSum | src/decoder/mod.rs:318-319 | x^30 + x^22 + x^17 and x^14 + 1 leave the same remainder modulo the generator 0x16f63 |
| Miscorrection.TripleMatchesPair | src/decoder/mod.rs:316-332 | in an 11-byte frame, bits 57, 65, 70 and bits 73, 87 have the same remainder |
| Miscorrection.ThreeBitMiscorrected | src/decoder/mod.rs:186-203 | a valid 11-byte frame with bits 57, 65 and 70 flipped yields a payload with 2 bits repaired whose byte 7 is not the byte sent |
| Telegrams.BcdParse | src/decoder/structs.rs:13-25 | the digit loop yields the decimal value of the digits modulo 2^32, or nothing when a digit exceeds 9 |
| Telegrams.BcdSpec | src/decoder/structs.rs:13-25 | BCD parsing fails exactly when some digit exceeds 9; no digits give 0; up to nine digits give their exact decimal value |
| Telegrams.ReportingPoint | src/decoder/structs.rs:29-32 | the reporting point is byte 2 times 256 plus byte 3 |
| Telegrams.Delay | src/decoder/structs.rs:50-55 | the delay is bits 4-6 of byte 1, negated when bit 7 is set |
| Telegrams.Record | src/decoder/structs.rs:53-68 | junction and direction split the reporting point over 4 by ten, the request status is its low two bits, priority is bits 6-7 of byte 4, direction request bits 4-5 of byte 4, train length bits 0-2 of byte 8 |
| Telegrams.ParseR09Telegram | src/decoder/structs.rs:28-69 | a record exists exactly when the line, run and destination nibbles are all decimal, and then carries their decimal values and every other field as extracted from the payload bytes |
| Telegrams.ExampleDecodes | src/decoder/structs.rs:28-69 | a concrete nine-byte payload decodes to line 12, run 34, destination 567 |
| Dispatch.ParseR09 | src/decoder/mod.rs:278-298 | an R09 payload gives one record exactly when its type is 1, its length nibble 6 and its fields parse, and then that record; the length `assert_eq!` holds |
| Dispatch.ParseTelegram | src/decoder/mod.rs:216-276 | a payload sends at most one thing: a raw telegram exactly when its mode is not 9, its length is admissible for its mode and nothing was repaired; an R09 record exactly when it is a parseable nine-byte R09.16 payload |
| Decoding.BuildMaps | src/decoder/mod.rs:38-128 | the tables for lengths 5 to 21 in order, or nothing when one of them collides |
| Decoding.DisabledMapsEmpty | src/decoder/mod.rs:41 | with error correction disabled every table is empty |
| Decoding.ApplyPattern | src/decoder/mod.rs:189-192 | each byte of the frame is XORed with the byte of the pattern |
| Decoding.TryLength | src/decoder/mod.rs:168-204 | one framer iteration yields the candidate the framing definition gives |
| Decoding.Step | src/decoder/mod.rs:168-209 | one framer iteration sends what classifying its candidate sends |
| Decoding.Frame | src/decoder/mod.rs:166-210 | the framer loop sends, in order, what each length from 5 to two less than the byte count sends |
| Decoding.Decoder.constructor | src/decoder/mod.rs:130-134 | a decoder over the built tables with nothing sent |
| Decoding.Decoder.New | src/decoder/mod.rs:31-135 | no decoder exactly when some table collides; otherwise one holding the built tables and nothing sent |
| Decoding.Decoder.Decode | src/decoder/mod.rs:143-211 | the R09 and raw channels receive, after what they already hold, what the decoding of the stream sends |
| Decoding.Decoder.Process | src/decoder/mod.rs:137-141 | processing a stream sends what decoding a copy of it sends |
| DecoderFacts.ShortStreamSendsNothing | src/decoder/mod.rs:160-164 | a stream of fewer than 63 bits sends nothing |
| DecoderFacts.R09OnlyAtEleven | src/decoder/mod.rs:233-237 | only the 11-byte candidate can send an R09 record, and at most one |
| DecoderFacts.DecodedR09 | src/decoder/mod.rs:166-210 | one call sends at most one R09 record: that of the 11-byte candidate, when more than 12 bytes were demodulated |
| DecoderFacts.RawAt | src/decoder/mod.rs:250-264 | a length sends a raw telegram exactly when its frame is valid and its payload has a raw mode and admissible length, and then sends that payload |
| DecoderFacts.R09Delivered | src/decoder/mod.rs:166-210 | an R09.16 payload repaired at length 11 is the one R09 record of the call |
| DecoderFacts.R09PayloadDecoded | src/decoder/mod.rs:143-211 | an R09.16 payload repaired at length 11 from the demodulated stream is the one R09 record the call sends |
| DecoderFacts.ValidR09Decoded | src/decoder/mod.rs:143-211 | a valid 11-byte R09.16 frame at the head of a long enough stream is delivered, whatever the tables |
| DecoderFacts.OneBitR09Decoded | src/decoder/mod.rs:143-211 | with error correction on, a valid R09.16 frame with one bit flipped is delivered as sent |
| DecoderFacts.TwoBitsR09Decoded | src/decoder/mod.rs:143-211 | with error correction on, a valid R09.16 frame with two bits flipped is delivered as sent |
| DecoderFacts.TriedSameTables | src/decoder/mod.rs:167-186 | the candidates tried up to length 19 depend only on the first fifteen tables |
| DecoderFacts.LongTablesUnused | src/decoder/mod.rs:148-167 | the tables for lengths 20 and 21 never affect what is sent |

## Left out

- Logging (`info!`) is not modelled. Neither is any output that only logs, such as the C09 branch of `parse_telegram` and the R/C message of its last lines.
- The vectors of senders are one output sequence per kind, because every sender receives the same values in the same order. A failing `try_send` is not modelled; its result is ignored in the source.
- Decoding.Decoder.Decode: the sends of one call are appended there as a whole, after the framer loop, while the source sends inside it. The decoder never reads its own channels, and a failed `try_send` is not modelled (see above), so each channel is offered the same values in the same order.
- `TelegramType::from_u8` comes from the dump_dvb crate, which is not part of this model. A raw telegram keeps its mode as a number, and a mode that `from_u8` rejects, making `unwrap` panic, is not modelled.
- The dump_dvb types `R09Telegram` and `R09Types` are modelled as a datatype with the fields the source fills. Integer widths (u32, u8, i32) are unbounded integers; every value written fits its width.
- The `assert!(false)` on a table collision is modelled as no decoder (`Decoding.Decoder.New` returns nothing). Both `assert_eq!` in `decode` and the one in `parse_r09` are proved to hold.
- The tables are not computed, so whether any length collides is left open. The lemmas about tables take the built table as a hypothesis.
- A three-bit error can be repaired into a wrong payload, and the decoder does not rule this out. The generator divides x^30 + x^22 + x^17 + x^14 + 1, so a three-bit error can share its syndrome with a two-bit error, and the two-bit tier (src/decoder/mod.rs:58-77) claims that syndrome. The frame is then XORed with the pair: its syndrome becomes 0, and a payload that was never sent is handed on as repaired (Framing.PairMiscorrects). Miscorrection.ThreeBitMiscorrected shows this for bits 57, 65 and 70 of an R09-length frame. This follows from the code itself: a code of minimum distance five that repairs every two-bit error cannot also detect every three-bit error. So the model follows the source and proves no such guarantee.
- Telegrams.BcdParse: its `u32` accumulation is taken to wrap modulo 2^32, as a release build does; a debug build panics on overflow instead, which no caller in structs.rs can reach, since each passes at most three digits.
- `HashMap<u64, Vec<u8>>` is a map from syndromes to patterns, and `Vec` a sequence. The copy in `process` is a value copy.
- `G2Poly` arithmetic and `pow_mod` are the residue of 17-bit values modulo the generator, defined directly (`Gf2`).
- The channels, threads and sinks (src/sink.rs and src/main.rs), src/telegram.rs, src/structs.rs and src/decoder/test.rs are not part of this model.
