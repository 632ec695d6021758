# QR Code generation, verified

A model of the QR Code Model 2 encoder in `src/include/qrcodegen.cpp` (ISO/IEC 18004), for all 40 versions, all
four error correction levels and all eight masks, with proofs of what it produces.

The model keeps the shape of the encoder. `BitBuffer` and `QrCode` are classes whose methods update their fields;
the accumulator loops, the in-place polynomial product, the shift register, the zigzag scan, the mask trials and the
streaming run history are loops with invariants. Each is proved against a specification function, and the theorems
are about those functions. Exceptions are a `Result`.

| layer | modules | main theorems |
|---|---|---|
| error correction | `GaloisField`, `Polynomials`, `Division`, `ReedSolomon`, `CodeDistance`, `ErrorTolerance` | GF(2^8/0x11D) is a field generated by 2; the loops compute the generator polynomial and the unique remainder; the code has distance eccLen + 1 and so corrects eccLen / 2 bytes per block |
| final sequence | `Tables`, `Interleaving` | blocks partition the data; interleaving is a bijection without padding |
| bit stream | `Bits`, `ByteBits`, `Segments`, `BitStream`, `ModeChoice` | the stream parses back to its segments; smallest version, highest level, cheapest mode; exact capacity limits |
| matrix | `Grids`, `Counting`, `Patterns`, `FunctionMap`, `ModuleCount`, `Zigzag`, `Drawing`, `InformationCodes` | the drawn modules are a closed-form map whose complement has exactly the counted size; the zigzag visits each of those once |
| mask and penalty | `Masking`, `Runs`, `Finder`, `Features`, `LinePenalty`, `Penalty` | masks undo themselves; the run history counts exactly the flanked 1:1:3:1:1 patterns; the score is a weighted count of positions, and bounded |
| whole symbol | `SymbolSpec`, `QrCode.dfy` (module `Symbol`), `Integrity`, `Decoder`, `Encoder` | every pattern survives data and masking; the chosen mask is optimal; a reference decoder reads every text back from the modules |

`Decoder` is the partner of the whole encoder. It is not part of the encoder's sources: it starts from the modules
alone and follows the standard's reading order. Its pieces (`Parse` with `ModeOf` and `CountWidth`, `Unpacked`,
`CharacterOf`, `Deinterleave` with the rows by level, `Walked`, `LevelOf`, `MaskOf`) share no table, width or order
with the encoder's steps, whose partners they are. Where nothing reads a value back, numerals fix it: the format and
version words, the alignment positions, the pad codewords and the weights of the evaluation.

All the assertions in the encoder are proved: lines 282 (`FindVersion`), 297, 301 and 304 (`StreamLength`,
`Terminate`), 352 (`ChooseMask`), 423 and 452 (`ComputeFormatWord`, `ComputeVersionWord`), 531
(`AddEccAndInterleave`), 559 (`DrawCodewords`), 657 and 659 (`GetPenaltyScore`), 689 (`RawRange`), 746 (`Multiply`)
and 753 (`HistoryAtMost`).

The header says that the quartile level tolerates about 25% erroneous codewords (`src/include/qrcodegen.hpp`, lines
243-248). Taken as a bound, that is met everywhere but at version 1, which corrects 6 of 26; `ToleratedShare` proves
the documented shares at every other version and level.

Conventions: bytes that take part in field arithmetic are eight-bit vectors, while text and binary input are numbers
from 0 to 255; bit strings connect the two. A text is the sequence of its code units before the terminating NUL.
The encoder's two `ECC` tables are stored by version; `EccRow` and `BlocksRow` list them by level as the original
does, and `TableRows` proves the two forms equal.

## Model

| member | source | states |
|---|---|---|
| `Encoder.EncodeText` | `src/include/qrcodegen.cpp:247-250` | succeeds exactly when the text's segments fit some version at the level, with the exact error otherwise; the symbol has the smallest version, the highest level that costs no version, the best mask, and the reference decoder, which has its own field widths, character table, block rows and walk, reads exactly the text from its modules; 2953 code units always succeed at the low level |
| `Encoder.EncodeBinary` | `src/include/qrcodegen.cpp:253-256` | the same for bytes, always in byte mode; at the low level it succeeds if and only if there are at most 2953 bytes |
| `Encoder.EncodeSegments` | `src/include/qrcodegen.cpp:259-317` | argument check; success exactly when some version in the range fits; smallest fitting version, right level, requested or best mask; every list of well-formed segments is decoded from the modules |
| `Encoder.BuildDataCodewords` | `src/include/qrcodegen.cpp:290-313` | concatenation, terminator, bit padding, alternating pad bytes and packing give the codewords whose bits are the filled stream, which `CountWidthIs`, `FilledAt` and `ByteValue` fix bit by bit |
| `Encoder.Create` | `src/include/qrcodegen.cpp:320-336` | the constructor with its three argument checks and their error kinds; the modules are the candidate grid of the stored version, level, data and mask |
| `Decoder.SymbolRoundTrip` | `src/include/qrcodegen.cpp:320-359` | for every version, level, mask and data: the receiver that takes the version from the size, level and mask from the format bits, unmasks, reads the zigzag and de-interleaves gets back version, level, mask and data codewords |
| `Decoder.SegmentsRoundTrip` | `src/include/qrcodegen.cpp:259-359` | the same receiver followed by the stream parser recovers every list of well-formed segments that fits |
| `Decoder.FormatRead` | `src/include/qrcodegen.cpp:416-440` | five modules beside the top left finder pattern announce the level and mask of any masked symbol |
| `Decoder.CodewordsRead` | `src/include/qrcodegen.cpp:536-584` | unmasking a finished symbol and scanning it gives all codeword bits in order |
| `GaloisField.MulComm` | `src/include/qrcodegen.cpp:739-748` | the field product commutes |
| `GaloisField.MulAssoc` | `src/include/qrcodegen.cpp:739-748` | the field product associates |
| `GaloisField.MulAddLeft` | `src/include/qrcodegen.cpp:739-748` | it distributes over XOR in the first factor |
| `GaloisField.MulAddRight` | `src/include/qrcodegen.cpp:739-748` | it distributes over XOR in the second factor |
| `GaloisField.NoZeroDivisors` | `src/include/qrcodegen.cpp:739-748` | a product is zero exactly when a factor is, for all pairs of bytes |
| `GaloisField.OrderOfTwo` | `src/include/qrcodegen.cpp:711-720` | 2 has multiplicative order exactly 255 |
| `GaloisField.ExpDistinct` | `src/include/qrcodegen.cpp:711-720` | powers of 2 with exponents below 255 are pairwise distinct |
| `GaloisField.DiscreteLog` | `src/include/qrcodegen.cpp:711` | 2 generates the field: every nonzero byte is a power of 2 with exponent below 255 |
| `ReedSolomon.Multiply` | `src/include/qrcodegen.cpp:739-748` | the Russian peasant loop on its wider accumulator returns the field product, which fits a byte |
| `ReedSolomon.MultiplyByLinear` | `src/include/qrcodegen.cpp:715-719` | one in-place pass multiplies the stored product by (x - 2^i), the leading coefficient falling off |
| `ReedSolomon.ComputeDivisor` | `src/include/qrcodegen.cpp:701-723` | accepts exactly the degrees 1 to 255 and returns the product of (x - 2^i) for i below the degree without its leading 1 |
| `ReedSolomon.ComputeRemainder` | `src/include/qrcodegen.cpp:726-736` | the shift register returns the remainder for any divisor; an empty divisor fails on the first data byte |
| `ReedSolomon.SyndromesVanish` | `src/include/qrcodegen.cpp:701-736` | data followed by its error correction bytes evaluates to 0 at 2^0, ..., 2^(n-1) |
| `Polynomials.EvalProduct` | `src/include/qrcodegen.cpp:709-721` | Horner evaluation turns polynomial products into field products |
| `Polynomials.EvalGenerator` | `src/include/qrcodegen.cpp:709-721` | the generator evaluates to the product of the differences to its roots |
| `Polynomials.GeneratorRoots` | `src/include/qrcodegen.cpp:709-721` | its roots are exactly 2^0, ..., 2^(n-1), in both directions |
| `Polynomials.LinearFactor` | `src/include/qrcodegen.cpp:714-719` | each coefficient of p * (x - r) is the one the inner loop stores |
| `Polynomials.GeneratorMonic` | `src/include/qrcodegen.cpp:704-710` | the dropped leading coefficient is always 1 |
| `Division.RemainderIdentity` | `src/include/qrcodegen.cpp:726-736` | data * x^n = quotient * monic divisor + remainder, as polynomials, for every divisor |
| `Division.RemainderUnique` | `src/include/qrcodegen.cpp:726-736` | any quotient and remainder that satisfy the division identity are the computed ones, and conversely |
| `Division.RemainderLinear` | `src/include/qrcodegen.cpp:726-736` | the remainder of an XOR of data is the XOR of the remainders |
| `Division.RootOfCodeword` | `src/include/qrcodegen.cpp:726-736` | every root of the monic divisor is a root of data followed by its remainder |
| `CodeDistance.Vandermonde` | `src/include/qrcodegen.cpp:701-748` | with distinct locators, n vanishing power sums leave no solution with 1 to n nonzero coefficients |
| `CodeDistance.WeightBound` | `src/include/qrcodegen.cpp:701-748` | a nonzero block of at most 255 bytes with n vanishing syndromes has more than n nonzero bytes |
| `CodeDistance.CodewordsFarApart` | `src/include/qrcodegen.cpp:701-748` | two such blocks are equal or differ in more than n places |
| `CodeDistance.MinimumDistance` | `src/include/qrcodegen.cpp:701-748` | distinct data blocks are encoded at distance at least eccLen + 1 |
| `CodeDistance.ParityCheck` | `src/include/qrcodegen.cpp:701-748` | a block is an encoding of its data part if and only if its syndromes vanish |
| `CodeDistance.UniqueCorrection` | `src/include/qrcodegen.cpp:701-748` | a block with at most eccLen / 2 wrong bytes determines the data that was sent |
| `ErrorTolerance.ReadsUniquely` | `src/include/qrcodegen.cpp:498-533` | a received codeword sequence with at most eccLen / 2 wrong bytes in every block belongs to only one data sequence, at every version and level |
| `Tables.RawRange` | `src/include/qrcodegen.cpp:679-691` | the number of raw data modules is within 208 to 29648 at every version |
| `Tables.TableRows` | `src/include/qrcodegen.cpp:792-808` | at every version and level the two entries are those of the level's rows as the original lists them |
| `Tables.BlockParameters` | `src/include/qrcodegen.cpp:792-808` | every table entry is that of its level's row, and gives blocks with some data, at most 255 bytes and a legal divisor degree |
| `Tables.ToleratedShare` | `src/include/qrcodegen.hpp:243-248` | half the error correction codewords amount to the documented 7, 15, 25 or 30 percent of all codewords at a version and level if and only if it is not version 1 at the quartile level |
| `Tables.QuartileShortfall` | `src/include/qrcodegen.hpp:243-248` | the exception: version 1 at the quartile level corrects 6 of 26 codewords |
| `Tables.CapacityFalls` | `src/include/qrcodegen.cpp:694-698` | data capacity strictly falls from level to level at every version, and stays positive |
| `Tables.CapacityLimit` | `src/include/qrcodegen.cpp:694-698` | no version and level holds more than 2956 data codewords |
| `Interleaving.Layout.Parameters` | `src/include/qrcodegen.cpp:502-507` | short and long blocks add up to the raw codewords, and data lengths to the data capacity |
| `Interleaving.SplitBlocks` | `src/include/qrcodegen.cpp:509-520` | each block is its slice of the data, encoded, with a padding byte inserted in the short ones |
| `Interleaving.Weave` | `src/include/qrcodegen.cpp:522-531` | reading the padded blocks column by column and skipping padding is the interleaving of the unpadded blocks |
| `Interleaving.AddEccAndInterleave` | `src/include/qrcodegen.cpp:498-533` | accepts exactly the required data length and returns the interleaved encoded blocks of the layout that the rows by level give, as many bytes as raw codewords |
| `Interleaving.OwnerOfSlot` | `src/include/qrcodegen.cpp:523-530` | every byte of every block has one slot of the result, from which block and index are recovered |
| `Interleaving.SlotOfOwner` | `src/include/qrcodegen.cpp:523-530` | every slot of the result holds exactly one block byte and never padding |
| `Interleaving.DeinterleaveInterleave` | `src/include/qrcodegen.cpp:523-530` | de-interleaving undoes interleaving |
| `Interleaving.InterleaveDeinterleave` | `src/include/qrcodegen.cpp:523-530` | interleaving undoes de-interleaving, for every sequence of raw length |
| `Interleaving.JoinEncodedBlocks` | `src/include/qrcodegen.cpp:512-520` | the data parts of the blocks, joined in order, are a prefix of the data: the blocks partition it |
| `Interleaving.DataRecovered` | `src/include/qrcodegen.cpp:512-520` | all blocks together give back all the data |
| `Interleaving.ExtractDataInverts` | `src/include/qrcodegen.cpp:498-533` | de-interleaving and dropping error correction recovers the data at every version and level |
| `Bits.BitBuffer.constructor` | `src/include/qrcodegen.cpp:818-819` | a new buffer is empty |
| `Bits.BitBuffer.AppendBits` | `src/include/qrcodegen.cpp:822-827` | accepts exactly lengths 0 to 31 with a value that fits, appends its big-endian bits, and leaves the buffer alone otherwise |
| `Bits.ValueOfBitsOf` | `src/include/qrcodegen.cpp:822-827` | reading the appended bits gives the value back |
| `Bits.BitsOfValueOf` | `src/include/qrcodegen.cpp:822-827` | every bit string is the bits of its value, which fits its length |
| `Bits.BitsOfAt` | `src/include/qrcodegen.cpp:825-826` | bit k of the string is bit len - 1 - k of the value |
| `ByteBits.PackBits` | `src/include/qrcodegen.cpp:310-313` | or-ing bits into bytes gives the bytes whose big-endian bits are the input |
| `ByteBits.ByteValue` | `src/include/qrcodegen.cpp:779-781` | the eight bits of a byte, most significant first, spell its value |
| `ByteBits.BitStringInjective` | `src/include/qrcodegen.cpp:310-313` | different bytes have different bit strings |
| `Segments.MakeBytes` | `src/include/qrcodegen.cpp:69-76` | fails exactly above INT_MAX bytes, otherwise eight bits per byte |
| `Segments.MakeNumeric` | `src/include/qrcodegen.cpp:79-99` | fails exactly on a non-digit, otherwise the packed groups of three digits with a short last group |
| `Segments.MakeAlphanumeric` | `src/include/qrcodegen.cpp:102-122` | fails exactly on a character outside the set of 45, otherwise the packed pairs with a short last group |
| `Segments.MakeSegments` | `src/include/qrcodegen.cpp:125-140` | no segment for the empty text, otherwise one in the first of numeric, alphanumeric and byte mode that applies |
| `Segments.MakeEci` | `src/include/qrcodegen.cpp:143-158` | accepts exactly 0 to 999999, in one, two or three bytes with the designator prefixes 0, 10 and 110 |
| `Segments.IsNumeric` | `src/include/qrcodegen.cpp:196-203` | true exactly when all code units are digits |
| `Segments.IsAlphanumeric` | `src/include/qrcodegen.cpp:206-212` | true exactly when all code units are in the set of 45 |
| `Segments.CharsetTable` | `src/include/qrcodegen.cpp:230` | the set is the ten digits, the 26 upper case letters and nine further characters, each at its code and in order |
| `Segments.GroupFits` | `src/include/qrcodegen.cpp:88-97` | every accumulated group fits the field it is written to |
| `Segments.UnpackedPacked` | `src/include/qrcodegen.cpp:79-122` | reading groups back recovers the values, in every mode |
| `Segments.PackedLength` | `src/include/qrcodegen.cpp:79-122` | the number of payload bits is the closed form in the number of characters |
| `Segments.NumericRoundTrip` | `src/include/qrcodegen.cpp:79-99` | digits survive the round trip in 10 bits per three, plus 4 or 7 for one or two left over |
| `Segments.AlphanumericRoundTrip` | `src/include/qrcodegen.cpp:102-122` | characters survive the round trip in 11 bits per two, plus 6 for one left over |
| `Segments.TextRoundTrip` | `src/include/qrcodegen.cpp:125-140` | whatever mode is chosen, the segments read back as the text |
| `BitStream.GetTotalBits` | `src/include/qrcodegen.cpp:179-193` | the total number of bits, or -1 exactly when a count overflows its field or the sum overflows an int |
| `BitStream.FindVersion` | `src/include/qrcodegen.cpp:264-282` | the smallest version in the range that fits, or the error exactly when none does |
| `BitStream.BoostLevel` | `src/include/qrcodegen.cpp:284-288` | the highest fitting level, never below the requested one, although the loop may assign a lower level first |
| `BitStream.CapacityAntitone` | `src/include/qrcodegen.cpp:694-698` | capacity never rises with the level |
| `BitStream.Concatenate` | `src/include/qrcodegen.cpp:290-297` | headers and payloads in order; no appended value is out of range |
| `BitStream.StreamLength` | `src/include/qrcodegen.cpp:297` | the concatenated bits number exactly the total computed beforehand |
| `BitStream.Terminate` | `src/include/qrcodegen.cpp:299-304` | up to four terminator bits and the bits to a byte boundary, all zero, never beyond the capacity |
| `BitStream.PadAlternating` | `src/include/qrcodegen.cpp:306-308` | 0xEC and 0x11 alternate until exactly the capacity |
| `BitStream.FillToCapacity` | `src/include/qrcodegen.cpp:299-308` | terminator and padding together fill the stream to exactly its capacity |
| `BitStream.FilledAt` | `src/include/qrcodegen.cpp:299-308` | every bit of the filled stream: data, zeros to the byte boundary after at most four terminator bits, then 11101100 00010001 over and over |
| `BitStream.CountWidthIs` | `src/include/qrcodegen.cpp:57-66` | the width of every count field is the standard's for versions 1 to 9, 10 to 26 and 27 to 40 |
| `BitStream.ParseStream` | `src/include/qrcodegen.cpp:290-297` | a reference parser recovers well-formed segments from their concatenation followed by anything that starts like a terminator or is too short for a header |
| `BitStream.StreamRoundTrip` | `src/include/qrcodegen.cpp:290-308` | a parser with its own mode indicators and field widths gets the segments back from the filled stream, whether or not the terminator was cut short |
| `ModeChoice.ChosenIsCheapest` | `src/include/qrcodegen.cpp:125-140` | the chosen mode needs no more bits than any other mode that applies, at every version |
| `ModeChoice.ChosenFitsFirst` | `src/include/qrcodegen.cpp:125-140` | whenever another single mode fits a version and level, so does the chosen one |
| `ModeChoice.ExactLimit` | `src/include/qrcodegen.cpp:264-282` | at the low level a single segment fits some version if and only if its count is within the limit of its mode |
| `ModeChoice.TextFitsExactly` | `src/include/qrcodegen.hpp:258-265` | the exact length up to which a text encodes at the low level, by the mode it is given |
| `ModeChoice.TextGuarantee` | `src/include/qrcodegen.hpp:258-265` | every text of at most 2953 code units fits at the low level |
| `ModeChoice.BinaryFitsExactly` | `src/include/qrcodegen.hpp:268-274` | binary data fits at the low level if and only if it has at most 2953 bytes |
| `ModeChoice.TextSegmentsWellFormed` | `src/include/qrcodegen.cpp:125-140` | every segment made from text has the payload length its header announces |
| `ModeChoice.EciRoundTrip` | `src/include/qrcodegen.cpp:143-158` | every ECI designator delimits itself by its leading bits, is as short as its value allows and gives the value back |
| `Symbol.QrCode.constructor` | `src/include/qrcodegen.cpp:320-359` | the final grid is the candidate of the stored mask; a requested mask is used; otherwise no mask scores lower and ties go to the smallest index |
| `Symbol.QrCode.DrawUnmasked` | `src/include/qrcodegen.cpp:333-336` | function patterns and zigzagged codewords from a blank grid, with the function map marked |
| `Symbol.QrCode.ChooseMask` | `src/include/qrcodegen.cpp:338-350` | trials leave all modules but the format information as they were; the result is in 0 to 7 and is the first with the lowest score |
| `Symbol.QrCode.ApplyMaskAndFormat` | `src/include/qrcodegen.cpp:342-343` | from any grid that differs from the unmasked one in format information only, the candidate for the mask |
| `Symbol.QrCode.SetFunctionModule` | `src/include/qrcodegen.cpp:485-490` | one module takes the colour and is marked, and nothing else changes |
| `Symbol.QrCode.DrawTimingPatterns` | `src/include/qrcodegen.cpp:388-392` | paints and marks exactly row 6 and column 6 |
| `Symbol.QrCode.DrawFinderPattern` | `src/include/qrcodegen.cpp:465-474` | paints and marks exactly the modules within distance 4, clipped to the grid |
| `Symbol.QrCode.DrawAlignmentPattern` | `src/include/qrcodegen.cpp:477-482` | paints and marks exactly the modules within distance 2, all in bounds |
| `Symbol.QrCode.DrawFormatBits` | `src/include/qrcodegen.cpp:416-440` | paints and marks both copies of the format word and the dark module |
| `Symbol.QrCode.DrawVersion` | `src/include/qrcodegen.cpp:443-462` | paints and marks both copies of the version word from version 7 on and nothing below |
| `Symbol.QrCode.DrawAlignmentPatterns` | `src/include/qrcodegen.cpp:399-408` | draws all alignment patterns but those on the three finder corners, each in bounds |
| `Symbol.QrCode.DrawFunctionPatterns` | `src/include/qrcodegen.cpp:387-413` | the grid and the map are those of all layers drawn in order on a blank grid |
| `Symbol.QrCode.PlaceBit` | `src/include/qrcodegen.cpp:546-553` | one scan step: a free module takes the next bit if any is left |
| `Symbol.QrCode.DrawColumnPair` | `src/include/qrcodegen.cpp:545-557` | one column pair continues the scan, in the direction that `ScanSteps` fixes |
| `Symbol.QrCode.DrawCodewords` | `src/include/qrcodegen.cpp:536-560` | accepts exactly the raw length; all bits are placed on the free modules in scan order, which `ScanIsWalk` fixes, and no other module changes |
| `Symbol.QrCode.ApplyMask` | `src/include/qrcodegen.cpp:563-584` | rejects exactly the masks outside 0 to 7; otherwise inverts exactly the free modules the pattern selects |
| `Symbol.ComputeFormatWord` | `src/include/qrcodegen.cpp:416-423` | the loop computes the format word, which fits 15 bits and without 0x5412 is a multiple of 0x537 |
| `Symbol.ComputeVersionWord` | `src/include/qrcodegen.cpp:447-452` | the loop computes the version word, which fits 18 bits and is a multiple of 0x1F25 |
| `Patterns.FormatReads` | `src/include/qrcodegen.cpp:416-423` | five bits of the format word give back level and mask |
| `Patterns.VersionReads` | `src/include/qrcodegen.cpp:447-452` | the top six bits of the version word spell the version |
| `Patterns.MarkAllAt` | `src/include/qrcodegen.cpp:387-413` | a module is marked if and only if some layer covers it |
| `Patterns.PaintAllAt` | `src/include/qrcodegen.cpp:387-413` | a module shows the colour of the last layer that covers it |
| `InformationCodes.FormatDistance` | `src/include/qrcodegen.cpp:416-423` | format words of different level or mask differ in at least seven bits |
| `InformationCodes.VersionDistance` | `src/include/qrcodegen.cpp:447-452` | version words of different versions differ in at least eight bits |
| `InformationCodes.FormatIsCodeword` | `src/include/qrcodegen.cpp:416-423` | the format word XOR 0x5412 is the carry-less product of 0x537 with some q below 32, and its top five bits are level and mask |
| `InformationCodes.FormatUnique` | `src/include/qrcodegen.cpp:416-423` | the top five bits determine such a product, so all 15 bits of the word are fixed |
| `InformationCodes.VersionIsCodeword` | `src/include/qrcodegen.cpp:447-452` | the version word is the carry-less product of 0x1F25 with some q below 64, and its top six bits spell the version |
| `InformationCodes.VersionUnique` | `src/include/qrcodegen.cpp:447-452` | the top six bits determine such a product, so all 18 bits of the word are fixed |
| `Patterns.LowWordBits` | `src/include/qrcodegen.cpp:779-781` | bits 0 to 8 of a word are the last bits of the word shifted right |
| `Patterns.HighWordBits` | `src/include/qrcodegen.cpp:779-781` | the same for bits 9 to 17 |
| `FunctionMap.GetAlignmentPatternPositions` | `src/include/qrcodegen.cpp:664-676` | the positions inserted at the front from the largest down are those of annex E of ISO/IEC 18004, at every version |
| `FunctionMap.AlignApart` | `src/include/qrcodegen.cpp:668-673` | centres are far enough apart that no two alignment patterns touch, at every version |
| `FunctionMap.AlignmentTable` | `src/include/qrcodegen.cpp:664-676` | the closed form gives the table of annex E of ISO/IEC 18004 |
| `FunctionMap.FunctionMapIs` | `src/include/qrcodegen.cpp:387-490` | the union of everything drawn is a closed-form function map that depends on the version alone |
| `ModuleCount.PieceIsProduct` | `src/include/qrcodegen.cpp:679-691` | the function map splits into ten disjoint products of rows and columns |
| `ModuleCount.FreeCellsCount` | `src/include/qrcodegen.cpp:679-691` | the modules outside every function pattern number exactly the closed form, at every version |
| `SymbolSpec.MarksAreMap` | `src/include/qrcodegen.cpp:387-413` | what the drawing marks is the closed-form map, whatever the level and mask |
| `SymbolSpec.FreeListCount` | `src/include/qrcodegen.cpp:536-560` | the zigzag scan meets exactly as many free modules as the closed form counts |
| `SymbolSpec.BaseBits` | `src/include/qrcodegen.cpp:536-560` | the unmasked symbol holds its codeword bits in scan order |
| `SymbolSpec.SameSymbolBits` | `src/include/qrcodegen.cpp:416-440` | rewriting the format information never touches a codeword bit |
| `SymbolSpec.WalkReadsSymbol` | `src/include/qrcodegen.cpp:536-560` | a walk over the whole symbol passes its codeword bits in order |
| `Zigzag.TimeOfCell` | `src/include/qrcodegen.cpp:541-557` | each step visits a cell in bounds and outside column 6, and different steps visit different cells, for every odd size from 9 |
| `Zigzag.CellOfTime` | `src/include/qrcodegen.cpp:541-557` | every cell outside column 6 is visited |
| `Zigzag.ScanSteps` | `src/include/qrcodegen.cpp:541-557` | each step of the scan: left within a pair; then right and a row up in pairs 0, 2, 4, ..., a row down in the others; at the end of a pair to the next pair in the same row, skipping column 6 |
| `Zigzag.ScanIsWalk` | `src/include/qrcodegen.cpp:541-557` | at every size of a symbol the scan is the walk with those steps from the bottom right corner |
| `Zigzag.WalkReads` | `src/include/qrcodegen.cpp:541-557` | walking over the free modules reads what the scan wrote |
| `Zigzag.FreeListHas` | `src/include/qrcodegen.cpp:541-557` | the free cells met are all the unmarked cells and only those, if column 6 is marked |
| `Zigzag.WrittenAt` | `src/include/qrcodegen.cpp:550-553` | the k-th free cell holds the k-th bit |
| `Zigzag.WrittenFrame` | `src/include/qrcodegen.cpp:550-553` | marked cells keep their colour |
| `Zigzag.ReadWritten` | `src/include/qrcodegen.cpp:536-560` | reading back in scan order recovers what was written |
| `Masking.FormulaIs` | `src/include/qrcodegen.cpp:569-579` | the eight formulas invert the checkerboard, rows, columns, diagonals, 3*2 tiles and remainder patterns they should, stated in residues |
| `Masking.MaskedTwice` | `src/include/qrcodegen.cpp:563-584` | every mask is an involution, for every grid and function map |
| `Masking.TrialClean` | `src/include/qrcodegen.cpp:338-355` | mask trials compose: from any grid changed in format information only, the same candidate results, and undoing restores the rest |
| `Integrity.FunctionModuleKept` | `src/include/qrcodegen.cpp:333-355` | no codeword and no mask changes a function module outside the format information |
| `Integrity.FinderShown` | `src/include/qrcodegen.cpp:394-397` | all three finder patterns and separators are intact in every finished symbol |
| `Integrity.FinderProportions` | `src/include/qrcodegen.cpp:465-474` | row and column through every finder centre show 1:1:3:1:1, the pattern the penalty looks for |
| `Integrity.TimingShown` | `src/include/qrcodegen.cpp:388-392` | both timing patterns alternate without a gap, even where alignment patterns lie across them |
| `Integrity.AlignmentShown` | `src/include/qrcodegen.cpp:399-408` | every alignment pattern is complete |
| `Integrity.VersionShown` | `src/include/qrcodegen.cpp:454-461` | both copies show the version word |
| `Integrity.FormatShown` | `src/include/qrcodegen.cpp:353-355` | both copies show the word of the symbol's own level and mask, not of a trial |
| `Integrity.FormatCopies` | `src/include/qrcodegen.cpp:425-439` | the two modules of a finished symbol that show bit k of the format word, by coordinates, and the dark module |
| `Integrity.VersionCopies` | `src/include/qrcodegen.cpp:454-461` | the two modules that show bit k of the version word, by coordinates |
| `Runs.RunModule` | `src/include/qrcodegen.cpp:592-609` | every module of run i has the run's colour, so run lengths describe the line |
| `Finder.ReportedIsPatterns` | `src/include/qrcodegen.cpp:751-776` | on a line that starts light, the history reports exactly the 1:1:3:1:1 patterns flanked by 4 and 1 units of light |
| `LinePenalty.FinderCountIsPatterns` | `src/include/qrcodegen.cpp:751-776` | the finder part of a line's score counts those patterns in the line extended by size light modules at each end |
| `LinePenalty.RunPoints` | `src/include/qrcodegen.cpp:596-602` | the run part of a line's score is 3 per run of five or more and 1 per further stretch of five equal modules |
| `LinePenalty.FlankedIs` | `src/include/qrcodegen.cpp:760-776` | the border of one size at each end finds the same patterns as an endless light surround |
| `LinePenalty.ScoreIsPoints` | `src/include/qrcodegen.cpp:590-611` | the score of a line in numbers, without runs or history |
| `LinePenalty.HistoryAtMost` | `src/include/qrcodegen.cpp:751-753` | no history entry exceeds three times the size |
| `LinePenalty.AddHistory` | `src/include/qrcodegen.cpp:771-776` | shifts the history, adding the border to the first run only |
| `LinePenalty.TerminateAndCount` | `src/include/qrcodegen.cpp:760-768` | closes the line so that all runs of the bordered line have been counted |
| `LinePenalty.ScoreLine` | `src/include/qrcodegen.cpp:590-611` | the streaming loop computes the points of the line: 3 for each run of five or more, 1 for each further module, 40 for each finder-like pattern with four light units on one side, as sizes of sets of positions |
| `LinePenalty.NoConsecutive` | `src/include/qrcodegen.cpp:751-757` | two successive light run ends never both report a pattern |
| `LinePenalty.ScoreBound` | `src/include/qrcodegen.cpp:590-633` | the bound on one line's score that the total bound needs |
| `Penalty.BalanceIsLeast` | `src/include/qrcodegen.cpp:654-657` | k is the least with (45-5k)% <= dark/total <= (55+5k)%, and within 0 to 9 for every odd total |
| `Penalty.CountBlocks` | `src/include/qrcodegen.cpp:635-644` | 3 times the number of positions of 2*2 blocks of one colour |
| `Penalty.CountDark` | `src/include/qrcodegen.cpp:646-653` | the number of positions of dark modules |
| `Penalty.GetPenaltyScore` | `src/include/qrcodegen.cpp:587-661` | the points of all rows and columns, 3 per uniform 2*2 block and 10 times the least k that balances the dark modules, all as sizes of sets of positions; within 0 to 2568888 |
| `Penalty.TotalBound` | `src/include/qrcodegen.cpp:657-659` | both assertions of the original hold for every grid of odd size up to 177 |
| `Penalty.TotalIsPoints` | `src/include/qrcodegen.cpp:587-661` | the score of every grid of odd size is its points, with all weights as numerals |

## Left out

- Decoding a damaged symbol: uniqueness of the correction is proved, no correcting algorithm is given; the reference decoder takes undamaged modules.
- Kanji mode: the constant is in the model and the parser delimits such segments, but the encoder has no factory for them and their text is not interpreted.
- Segments.MakeNumeric: the character count is unbounded; a text of more than INT_MAX digits, which overflows the counter of the original, is not modelled as overflowing.
- Segments.MakeAlphanumeric: the same for its character count.
- Symbol.QrCode.constructor: requires valid arguments; the checks and their exceptions are in `Encoder.Create`, which also checks the data length before allocating instead of after drawing the function patterns.
- Symbol.QrCode.DrawCodewords: requires a function map with enough free modules, which the original asserts; `SymbolSpec.EnoughRoom` proves it for the map that is drawn.
- Symbol.QrCode.ChooseMask: LONG_MAX is taken as 2^31 - 1, the least the language allows; the score bound is below it.
- LinePenalty.ScoreLine: one method for the row loop and the column loop of the original, which differ in the line they walk only.
- Vectors of vectors of booleans are sequences of sequences held in fields; their allocation, moves and `shrink_to_fit` are not modelled.
- Memory exhaustion, copy and move constructors, getters, `getModule` and the wording of exception messages.
- The rest of the repository: user interface, networking, database, JSON, scanning and bundled library headers.
