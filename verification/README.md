# QR symbols, chain store and scoped batches

This project models three parts of the coin's core and proves what they promise.

1. The QR Code encoder (`external/qrcodegen`). Text or bytes become segments, a bit stream, data codewords,
   Reed-Solomon blocks, interleaved codewords and finally a masked grid of modules. The main theorem closes the
   circle: a reader that is given nothing but the modules gets back the segments (`Encoder.EncodeSegments`,
   `Encoder.EncodeText`, `Encoder.EncodeBinary`), and damage to at most half the error correction bytes of every
   block cannot make the symbol look like other data (`SymbolReader.DamageCorrectable`).
2. The chain store (`src/blockchain_db/blockchain_db.cpp`): adding and popping blocks, over every run, and the relay
   state of transactions in the pool.
3. The scoped batches of `src/blockchain_db/locked_txn.h`: guards that start, commit and abort a batch, with a
   database that may fail.

Code that updates objects is modelled by classes (`QrSymbol.QrCode`, `BitStrings.BitBuffer`, `ChainDb.BlockchainDB`,
`RelayState.TxMeta`, `LockedTxn.LockedTXN`), loops by loops. Each method is proved against a specification function or
a cell-by-cell description, and the lemmas are about those. What a symbol looks like is also stated without these
functions: as pictures (`SymbolPictures`, `MaskTiles`), as numbers (`CapacityColumns`, `StreamFields`) and as counts of
modules (`FinderLookalikes`, `PenaltyMeaning`). Exceptions are values of type `Result`. Checks in the source that throw
"Assertion error" are kept; either the result type shows that they cannot fire or the dead branch is proved to be dead.

`dafny verify dfyconfig.toml` checks the whole project.

## How the files build on each other

- Basics: `Options`, `Arithmetic`, `Sequences`, `BinaryNumbers`, `FiniteSets`.
- Arithmetic: `GaloisField` (bytes with carry-less product modulo 0x11D), `PrimitiveElement`
  (2 has order 255, so every non-zero byte has an inverse), `Polynomials`.
- Error correction: `ReedSolomon` (generator, remainder), `MinimumDistance` (the code corrects half its check bytes),
  `Interleaving`.
- Bit stream: `BitStrings`, `DigitGroups`, `Segments`, `SegmentStream`, `CapacityTables`, `CapacityColumns`,
  `BytePacking`, `DataCodewords`, `StreamFields`.
- Grid: `Grids`, `Zigzag`, `SymbolGeometry`, `FunctionCount`, `CodewordArea`, `FormatInfo`, `PatternColors`, `Masking`,
  `MaskTiles`, `RunLengths`, `LinePenalty`, `FinderLookalikes`, `GridPenalty`, `PenaltyMeaning`, `FinishedSymbol`,
  `QrSymbol`.
- Round trip: `SymbolReader`, `SymbolPictures`, `Encoder`.
- Chain: `ChainData`, `OutputTable`, `OutputPlaces`, `ChainLedger`, `ChainStore`, `ChainRuns`, `ChainUndo`,
  `ChainIndex`, `ChainOrder`, `ChainDb`, `RelayState`.
- Batches: `LockedTxn`.

## Where the code does less than it says

- The QUARTILE level is documented to tolerate about 25% wrong codewords. In version 1 it corrects 6 of 26, and in every
  other version at least 25% (`CapacityColumns.TolerantIff`).
- `upgrade_relay_method` is documented to return true if the method is now the requested one. It returns false if that
  already was the method (`RelayState.ReturnValueMeans`, `RelayState.RepeatedRequest`).
- The relay category `legacy`, unlike `broadcasted` and `relayable`, can be left (`RelayState.LegacyKept`,
  `RelayState.LegacyLeft`).
- Adding a transaction and removing its outputs decide differently whether its outputs are stored under amount 0.
  Removing is the inverse of adding exactly if the two conditions agree or all amounts are 0 (`ChainStore.UndoTransactionIff`,
  `ChainData.RestorableIff`, `ChainStore.NotRestored`), and popping a block the inverse of adding it exactly if the
  places its outputs are stored at are, in some order, the places they are looked for (`ChainUndo.PopAddedExactly`). If no
  other transaction has a gen input, that is so exactly if the miner transaction qualifies
  (`ChainUndo.PopAddedIffMiner`). All ordinary transactions do (`ChainData.OrdinaryRestorable`).
- The number of amount-0 outputs that `add_block` reports is right exactly under the condition of
  `ChainStore.RctReportedIff` (`ChainStore.RctMisreported` is a block for which it is not).
- A guard whose commit failed half-way still believes in its batch. In every run each batch is ended by the guard that
  started it, all or nothing, exactly if no such guard is called while another batch is in progress
  (`LockedTxn.RunSafeIff`; `LockedTxn.OuterGuardEndsInnerBatch` and `LockedTxn.OuterGuardInheritsBatch` are runs in which
  one is).

## Model

| member | source | states |
|---|---|---|
| `GaloisField.Multiply` | hashmonkey-core/external/qrcodegen/QrCode.cpp:772-782 | the shift-and-xor loop computes the field product and never leaves a byte, so the final check cannot fire |
| `GaloisField.MulCommutes` | hashmonkey-core/external/qrcodegen/QrCode.cpp:772-782 | the product is commutative |
| `GaloisField.MulAssociates` | hashmonkey-core/external/qrcodegen/QrCode.cpp:772-782 | the product is associative |
| `GaloisField.MulAddLeft` | hashmonkey-core/external/qrcodegen/QrCode.cpp:772-782 | the product distributes over exclusive or |
| `PrimitiveElement.OrderOfTwo` | hashmonkey-core/external/qrcodegen/QrCode.cpp:744-753 | no positive power of 2 below the 255th is 1, so the roots of the generator are distinct |
| `PrimitiveElement.EveryByteIsPower` | hashmonkey-core/external/qrcodegen/QrCode.cpp:744-753 | 2 generates the field: every non-zero byte is a power of it |
| `PrimitiveElement.NoZeroDivisors` | hashmonkey-core/external/qrcodegen/QrCode.cpp:772-782 | a product is zero only if a factor is |
| `ReedSolomon.MultiplyByLinear` | hashmonkey-core/external/qrcodegen/QrCode.cpp:747-752 | the in-place loop replaces every coefficient as if all were replaced at once |
| `ReedSolomon.RoundMultiplies` | hashmonkey-core/external/qrcodegen/QrCode.cpp:746-753 | such a round multiplies the right-aligned monic product by one more linear factor, dropping exactly its leading 1 when it is full |
| `ReedSolomon.ComputeDivisor` | hashmonkey-core/external/qrcodegen/QrCode.cpp:734-756 | for degrees 1 to 255 the result is the product of (x - 2^i) with exactly its leading 1 dropped; other degrees are refused |
| `ReedSolomon.GeneratorRoots` | hashmonkey-core/external/qrcodegen/QrCode.cpp:742-754 | the product vanishes at a byte exactly if it is one of the first `degree` powers of 2 |
| `ReedSolomon.ComputeRemainder` | hashmonkey-core/external/qrcodegen/QrCode.cpp:759-769 | for data of any length, data followed by the result is a multiple of the monic divisor |
| `MinimumDistance.MultipleIsCodeword` | hashmonkey-core/external/qrcodegen/QrCode.cpp:734-769 | a multiple of the generator is zero at 2^0 up to 2^(degree-1) |
| `MinimumDistance.RemainderIffCodeword` | hashmonkey-core/external/qrcodegen/QrCode.cpp:759-769 | the remainder is the only completion of the data that vanishes at those powers |
| `MinimumDistance.LightCodewordIsZero` | hashmonkey-core/external/qrcodegen/QrCode.cpp:734-769 | a non-zero codeword of at most 255 bytes has more non-zero bytes than the degree |
| `MinimumDistance.UniqueDecoding` | hashmonkey-core/external/qrcodegen/QrCode.hpp:243-248 | two codewords within half the degree of the same word are equal |
| `BitStrings.BitBuffer.AppendBits` | hashmonkey-core/external/qrcodegen/QrCode.cpp:855-860 | appends the big-endian bits, or refuses a length out of range or a value that does not fit, changing nothing |
| `BitStrings.FromToBits` | hashmonkey-core/external/qrcodegen/QrCode.cpp:855-860 | a field that fits can be read back |
| `Segments.MakeBytes` | hashmonkey-core/external/qrcodegen/QrCode.cpp:67-74 | the segment of the bytes, refused exactly above INT_MAX bytes |
| `Segments.MakeNumeric` | hashmonkey-core/external/qrcodegen/QrCode.cpp:77-97 | succeeds exactly on digits, with groups of three in 10, 7 or 4 bits that never overflow their fields |
| `Segments.MakeAlphanumeric` | hashmonkey-core/external/qrcodegen/QrCode.cpp:100-120 | succeeds exactly on the 45 characters, with pairs in 11 or 6 bits that never overflow their fields |
| `Segments.IsNumeric` | hashmonkey-core/external/qrcodegen/QrCode.cpp:203-210 | true exactly if every character is a digit |
| `Segments.IsAlphanumeric` | hashmonkey-core/external/qrcodegen/QrCode.cpp:194-200 | true exactly if every character is in the alphabet |
| `Segments.MakeSegments` | hashmonkey-core/external/qrcodegen/QrCode.cpp:123-138 | the bits of the segment decode to the text, and no other segment that stands for the text is shorter in any version; no segment for the empty text |
| `Segments.ModesInOrder` | hashmonkey-core/external/qrcodegen/QrCode.cpp:124-137 | with its header, numeric mode is never longer than alphanumeric, and that never longer than byte mode |
| `Segments.BestModeIsMostCompact` | hashmonkey-core/external/qrcodegen/QrCode.cpp:124-137 | the mode that makeSegments picks gives the shortest segment that stands for the text, in every version |
| `Segments.MakeEci` | hashmonkey-core/external/qrcodegen/QrCode.cpp:141-156 | succeeds exactly from 0 to 999999, with the designator bits that EciRoundTrip decodes |
| `Segments.NumericRoundTrip` | hashmonkey-core/external/qrcodegen/QrCode.cpp:77-97 | the payload of a numeric segment decodes to its digits |
| `Segments.AlphanumericRoundTrip` | hashmonkey-core/external/qrcodegen/QrCode.cpp:100-120 | the payload of an alphanumeric segment decodes to its text |
| `Segments.ByteRoundTrip` | hashmonkey-core/external/qrcodegen/QrCode.cpp:67-74 | the payload of a byte segment decodes to its bytes |
| `Segments.NumericBitLength` | hashmonkey-core/external/qrcodegen/QrCode.cpp:77-97 | n digits take 10 bits for every three and 4 or 7 for the rest |
| `Segments.AlphanumericBitLength` | hashmonkey-core/external/qrcodegen/QrCode.cpp:100-120 | n characters take 11 bits for every two and 6 for the rest |
| `Segments.ByteBitLength` | hashmonkey-core/external/qrcodegen/QrCode.cpp:67-74 | n bytes take 8n bits |
| `Segments.CountFieldWidths` | hashmonkey-core/external/qrcodegen/QrCode.cpp:55-64 | the widths of the count fields of every mode in versions 1 to 9, 10 to 26 and 27 to 40 |
| `StreamFields.CharsetIs` | hashmonkey-core/external/qrcodegen/QrCode.cpp:228-228 | the number of a character is its place in the written-out alphabet, and no other character has one |
| `StreamFields.ModeIndicators` | hashmonkey-core/external/qrcodegen/QrCode.cpp:60-64 | the four bits that announce each mode |
| `StreamFields.NumericFields` | hashmonkey-core/external/qrcodegen/QrCode.cpp:77-97 | three digits a, b, c become the number 100a + 10b + c in ten bits, followed by the rest; two or one left over take seven or four |
| `StreamFields.AlphanumericFields` | hashmonkey-core/external/qrcodegen/QrCode.cpp:100-120 | two characters become 45a + b in eleven bits, followed by the rest; one left over takes six |
| `SegmentStream.GetTotalBits` | hashmonkey-core/external/qrcodegen/QrCode.cpp:177-191 | the mathematical sum of all lengths, or -1 exactly if a count does not fit its field or the sum exceeds INT_MAX; 32-bit arithmetic never overflows on the way |
| `SegmentStream.ParseStream` | hashmonkey-core/external/qrcodegen/QrCode.cpp:287-293 | a stream of well-formed segments followed by a terminator parses to those segments |
| `SegmentStream.EciRoundTrip` | hashmonkey-core/external/qrcodegen/QrCode.cpp:141-156 | the designator bits determine the assignment value |
| `CapacityTables.EveryVersionSound` | hashmonkey-core/external/qrcodegen/QrCode.cpp:827-843 | in every column of the tables blocks have data and at most 255 bytes, and capacity falls strictly from LOW to HIGH |
| `CapacityTables.RawModulesInRange` | hashmonkey-core/external/qrcodegen/QrCode.cpp:711-724 | the range check on the number of modules cannot fire |
| `CapacityColumns.ColumnHolds` | hashmonkey-core/external/qrcodegen/QrCode.cpp:711-731 | the raw codewords and the data codewords of all 40 versions and four levels, as written-out numbers |
| `CapacityColumns.EveryLevelTolerant` | hashmonkey-core/external/qrcodegen/QrCode.hpp:243-248 | every version tolerates the promised 7, 15, 25 and 30 percent of wrong codewords and less than five percent more; version 1 at QUARTILE tolerates between 23 and 28 |
| `CapacityColumns.TolerantIff` | hashmonkey-core/external/qrcodegen/QrCode.hpp:243-248 | the promised share is reached exactly if it is not version 1 at QUARTILE, which corrects 6 of 26 |
| `BytePacking.PackBits` | hashmonkey-core/external/qrcodegen/QrCode.cpp:310-313 | the bits of the packed bytes are the given bits |
| `DataCodewords.ChooseVersion` | hashmonkey-core/external/qrcodegen/QrCode.cpp:260-279 | finds the smallest version in the range that holds the segments, and fails only if none does |
| `DataCodewords.BoostLevel` | hashmonkey-core/external/qrcodegen/QrCode.cpp:281-285 | the highest level that still holds the data, never below the requested one |
| `DataCodewords.WriteSegments` | hashmonkey-core/external/qrcodegen/QrCode.cpp:287-295 | the buffer holds all headers and payloads; no range check of appendBits trips |
| `DataCodewords.Terminate` | hashmonkey-core/external/qrcodegen/QrCode.cpp:297-304 | at most four zero bits, then zero bits up to a byte; no range check of appendBits trips |
| `DataCodewords.Fill` | hashmonkey-core/external/qrcodegen/QrCode.cpp:306-308 | alternating 0xEC and 0x11 up to exactly the capacity |
| `StreamFields.FillReaches` | hashmonkey-core/external/qrcodegen/QrCode.cpp:297-304 | with n data bits the zero bits end with byte (n + 11) / 8, rounded down, or at the capacity |
| `StreamFields.PaddingCodewords` | hashmonkey-core/external/qrcodegen/QrCode.cpp:306-313 | all codewords after that are 0xEC and 0x11 in turn |
| `DataCodewords.WriteCodewords` | hashmonkey-core/external/qrcodegen/QrCode.cpp:287-313 | for segments that fit, the padded stream in exactly as many bytes as the capacity; the three checks on the way cannot fire |
| `DataCodewords.EncodeData` | hashmonkey-core/external/qrcodegen/QrCode.cpp:255-313 | smallest version, best level and padded codewords; the only failures are invalid arguments and data that fit no version |
| `DataCodewords.ReadBack` | hashmonkey-core/external/qrcodegen/QrCode.cpp:287-313 | the data codewords parse to the segments they were made from |
| `Interleaving.LayoutTotals` | hashmonkey-core/external/qrcodegen/QrCode.cpp:533-551 | the block lengths add up to the data and to the raw codewords |
| `Interleaving.BuildBlocks` | hashmonkey-core/external/qrcodegen/QrCode.cpp:540-551 | all padded blocks have equal length, with their slice of the data and its remainder |
| `Interleaving.Interleave` | hashmonkey-core/external/qrcodegen/QrCode.cpp:553-561 | every byte that is not padding is at its place in the result, which has as many bytes as there are places |
| `Interleaving.InterleavedExactly` | hashmonkey-core/external/qrcodegen/QrCode.cpp:553-563 | every position of the result is the place of exactly one byte of the blocks, and holds it |
| `Interleaving.AddEccAndInterleave` | hashmonkey-core/external/qrcodegen/QrCode.cpp:529-565 | de-interleaving gives the data and, for every block, its error correction bytes; the length check cannot fire |
| `Interleaving.DataDetermined` | hashmonkey-core/external/qrcodegen/QrCode.hpp:243-248 | data are determined if at most half the error correction bytes of every block are wrong |
| `Zigzag.ScanExact` | hashmonkey-core/external/qrcodegen/QrCode.cpp:572-590 | for every size 4k + 1 from 21 on, the scan visits every cell outside column 6 exactly once and column 6 never |
| `Zigzag.ScanTurns` | hashmonkey-core/external/qrcodegen/QrCode.cpp:572-590 | the exact order for every size: cell k of column pair j, counted from the right edge without column 6, is in its right or left column as k is even or odd and k / 2 rows from the bottom for even j, from the top for odd j |
| `Zigzag.ScanStarts` | hashmonkey-core/external/qrcodegen/QrCode.cpp:574-581 | the scan goes up from the lower right corner: (n-1, n-1), (n-2, n-1), (n-1, n-2) |
| `Zigzag.ScanSteps` | hashmonkey-core/external/qrcodegen/QrCode.cpp:578-581 | inside a pair the scan goes left in the row, then back to the right one row up, or one row down in every second pair |
| `Zigzag.ScanTurnsAround` | hashmonkey-core/external/qrcodegen/QrCode.cpp:574-576 | between pairs it stays in the top or bottom row it has reached and goes on in the next column, past column 6 |
| `CodewordArea.PlacedReadable` | hashmonkey-core/external/qrcodegen/QrCode.cpp:568-593 | for any function map with enough room, reading along the scan gives the bits; all other cells are unchanged |
| `CodewordArea.FreeCellCount` | hashmonkey-core/external/qrcodegen/QrCode.cpp:711-724 | the scan of every version has exactly as many free cells as the capacity formula says |
| `FunctionCount.PiecesMatchFormula` | hashmonkey-core/external/qrcodegen/QrCode.cpp:711-724 | the function cells of every version, overlaps counted once, number the square of the size minus the formula |
| `FunctionCount.PiecesAreFunctionCells` | hashmonkey-core/external/qrcodegen/QrCode.cpp:416-513 | the counted pieces are exactly the function cells |
| `SymbolGeometry.GetAlignmentPatternPositions` | hashmonkey-core/external/qrcodegen/QrCode.cpp:695-708 | the ascending positions, 6 and then equally spaced up to size - 7 |
| `SymbolGeometry.AlignPositionsApart` | hashmonkey-core/external/qrcodegen/QrCode.cpp:695-708 | positions after the first are at least 16 apart, so alignment patterns do not overlap |
| `SymbolGeometry.AlignStepLeast` | hashmonkey-core/external/qrcodegen/QrCode.cpp:699-701 | the step is even and the least one with which the positions reach back to 6; in version 32 it is 26, two less |
| `PatternColors.AlignColorUnique` | hashmonkey-core/external/qrcodegen/QrCode.cpp:428-437 | a cell of an alignment pattern belongs to one pattern only and has its colour |
| `FormatInfo.WordsFit` | hashmonkey-core/external/qrcodegen/QrCode.cpp:445-453 | format and version words have at most 15 and 18 bits, so the checks on them cannot fire |
| `FormatInfo.WordsAreCodewords` | hashmonkey-core/external/qrcodegen/QrCode.cpp:446-483 | the plain format word and the version word are carry-less multiples of 0x537 and 0x1F25, so the loops compute the remainders that make them codewords |
| `SymbolPictures.FormatWordData` | hashmonkey-core/external/qrcodegen/QrCode.cpp:446-451 | the first five bits of the plain format word are the two bits of the level (01, 00, 11, 10) and the mask |
| `FormatInfo.ComputeFormatBits` | hashmonkey-core/external/qrcodegen/QrCode.cpp:446-453 | the loop computes the remainder by repeated reduction, and its check is dead |
| `FormatInfo.ComputeVersionBits` | hashmonkey-core/external/qrcodegen/QrCode.cpp:477-483 | the loop computes the remainder by repeated reduction, and its check is dead |
| `QrSymbol.QrCode.SetFunctionModule` | hashmonkey-core/external/qrcodegen/QrCode.cpp:516-521 | one cell is coloured and marked, all others are unchanged |
| `QrSymbol.QrCode.DrawFinderPattern` | hashmonkey-core/external/qrcodegen/QrCode.cpp:496-505 | exactly the cells within distance 4 and inside the grid are marked, white at distance 2 and 4 |
| `QrSymbol.QrCode.DrawAlignmentPattern` | hashmonkey-core/external/qrcodegen/QrCode.cpp:508-513 | exactly the cells within distance 2 are marked, white at distance 1 |
| `QrSymbol.QrCode.DrawTimingPatterns` | hashmonkey-core/external/qrcodegen/QrCode.cpp:417-421 | row 6 and column 6 alternate from black |
| `QrSymbol.QrCode.DrawAlignmentPatterns` | hashmonkey-core/external/qrcodegen/QrCode.cpp:428-437 | a pattern at every pair of positions but the three finder corners |
| `QrSymbol.QrCode.DrawFormatBits` | hashmonkey-core/external/qrcodegen/QrCode.cpp:445-470 | the same cells for every mask: two copies of the word and the dark module |
| `QrSymbol.QrCode.DrawVersion` | hashmonkey-core/external/qrcodegen/QrCode.cpp:473-493 | from version 7 on two mirrored copies of the version word, before that nothing |
| `QrSymbol.QrCode.DrawFunctionPatterns` | hashmonkey-core/external/qrcodegen/QrCode.cpp:416-442 | every function cell and no other is marked, each in the colour of the pattern drawn there last |
| `QrSymbol.QrCode.DrawNextBit` | hashmonkey-core/external/qrcodegen/QrCode.cpp:579-585 | the next bit goes to the next free cell; a function cell, or a cell after the last bit, is left alone |
| `QrSymbol.QrCode.DrawCodewords` | hashmonkey-core/external/qrcodegen/QrCode.cpp:568-593 | the bits lie along the scan, whose order ScanTurns gives; the first check fails exactly for a wrong number of codewords, the last exactly if there is no room |
| `QrSymbol.RoomForCodewords` | hashmonkey-core/external/qrcodegen/QrCode.cpp:591-592 | there is room in every version, so the last check of drawCodewords cannot fire |
| `QrSymbol.QrCode.ApplyMask` | hashmonkey-core/external/qrcodegen/QrCode.cpp:596-617 | inverts exactly the free cells the mask selects, which MaskedByTile gives as a picture; refuses masks out of range |
| `Masking.MaskTwice` | hashmonkey-core/external/qrcodegen/QrCode.cpp:349-349 | masking twice gives back the grid |
| `Masking.MaskKeepsFunctionCells` | hashmonkey-core/external/qrcodegen/QrCode.cpp:614-614 | no mask changes a function cell |
| `MaskTiles.InvertsTile` | hashmonkey-core/external/qrcodegen/QrCode.cpp:603-612 | each mask inverts exactly the cells that its written-out tile of 6 by 12 cells marks, repeated over the plane |
| `MaskTiles.MaskedByTile` | hashmonkey-core/external/qrcodegen/QrCode.cpp:601-615 | the masked grid, cell by cell: function cells kept, the others inverted where the tile says so |
| `MaskTiles.StripedMasks` | hashmonkey-core/external/qrcodegen/QrCode.cpp:604-606 | mask 1 does not depend on the column and mask 2 not on the row |
| `RunLengths.ExpandRuns` | hashmonkey-core/external/qrcodegen/QrCode.cpp:625-642 | the run lengths of a line describe it |
| `RunLengths.RunsExpand` | hashmonkey-core/external/qrcodegen/QrCode.cpp:625-642 | no other list of non-empty alternating runs does, so the runs are maximal |
| `LinePenalty.AddHistory` | hashmonkey-core/external/qrcodegen/QrCode.cpp:806-811 | the newest run is first, the oldest is dropped, and the first run of a line gets the border |
| `LinePenalty.CountPatterns` | hashmonkey-core/external/qrcodegen/QrCode.cpp:785-792 | 0, 1 or 2 patterns, or the failure of its check; FinderCountMeans says what they are |
| `LinePenalty.TerminateAndCount` | hashmonkey-core/external/qrcodegen/QrCode.cpp:795-803 | a black run is closed, then the last white run gets the border |
| `LinePenalty.HistoryNext` | hashmonkey-core/external/qrcodegen/QrCode.cpp:635-641 | the history always holds the latest seven runs, with the border on the first, and patterns are counted after white runs only |
| `LinePenalty.HistoryEnds` | hashmonkey-core/external/qrcodegen/QrCode.cpp:643-643 | at the end it holds the latest seven runs with a border on the first and the last white run |
| `LinePenalty.BlackRunFits` | hashmonkey-core/external/qrcodegen/QrCode.cpp:786-788 | the run that the check looks at is a black one, no longer than the line |
| `LinePenalty.ScoreLine` | hashmonkey-core/external/qrcodegen/QrCode.cpp:624-666 | L - 2 for every maximal run of L >= 5, 40 for every pattern in a window of seven bordered runs; the check cannot fire |
| `FinderLookalikes.CountLookalikes` | hashmonkey-core/external/qrcodegen/QrCode.cpp:785-792 | for all alternating runs between light ones, the windows that match are as many as the places, units and sides at which the modules are dark, light, three times dark, light and dark between light margins of one and four units |
| `FinderLookalikes.FinderCountMeans` | hashmonkey-core/external/qrcodegen/QrCode.cpp:785-811 | the patterns counted in a line are exactly those places in the line with as many light modules added at each end as it has |
| `PenaltyMeaning.RunScoreMeans` | hashmonkey-core/external/qrcodegen/QrCode.cpp:629-634 | one point for every place where five modules are alike, and two more where such five begin a run |
| `PenaltyMeaning.LineScoreMeans` | hashmonkey-core/external/qrcodegen/QrCode.cpp:624-666 | the score of a line as these counts of modules, 40 for each finder-like place |
| `GridPenalty.BalanceIsLeast` | hashmonkey-core/external/qrcodegen/QrCode.cpp:687-690 | for an odd total the level is the least k >= 0 whose band holds the share of black modules |
| `GridPenalty.CountUniformSquares` | hashmonkey-core/external/qrcodegen/QrCode.cpp:668-677 | the number of cells that start a 2 by 2 square of one colour |
| `GridPenalty.CountBlack` | hashmonkey-core/external/qrcodegen/QrCode.cpp:679-686 | the number of black cells |
| `GridPenalty.GetPenaltyScore` | hashmonkey-core/external/qrcodegen/QrCode.cpp:620-692 | the sum of all lines, 3 for every square and 10 for every level of imbalance |
| `PenaltyMeaning.PenaltyMeans` | hashmonkey-core/external/qrcodegen/QrCode.cpp:620-692 | the penalty of a grid of odd size as counts over its modules, 3 for each square and 10 for each level |
| `PenaltyMeaning.UniformSquaresAre` | hashmonkey-core/external/qrcodegen/QrCode.cpp:668-677 | a counted square is one whose four modules all have the colour of its corner |
| `PenaltyMeaning.PenaltyTransposed` | hashmonkey-core/external/qrcodegen/QrCode.cpp:620-692 | the penalty does not change if rows and columns are exchanged |
| `GridPenalty.PenaltyBound` | hashmonkey-core/external/qrcodegen/QrCode.cpp:340-348 | the score of every size is below LONG_MAX, so the first trial is always taken |
| `FinishedSymbol.FormatRedrawn` | hashmonkey-core/external/qrcodegen/QrCode.cpp:341-356 | masking and redrawing the format bits gives the same grid in a trial and at the end, whatever trials came before |
| `QrSymbol.QrCode.ChooseMask` | hashmonkey-core/external/qrcodegen/QrCode.cpp:339-351 | the lowest-numbered mask of least penalty; the grid is left unmasked |
| `QrSymbol.QrCode.FinishMasking` | hashmonkey-core/external/qrcodegen/QrCode.cpp:339-359 | the final grid is the one that was scored for the chosen mask, and the check on the mask cannot fire |
| `QrSymbol.QrCode.DrawSymbol` | hashmonkey-core/external/qrcodegen/QrCode.cpp:333-336 | patterns and codewords that hold the data, failing exactly for a wrong number of data codewords |
| `QrSymbol.QrCode.Create` | hashmonkey-core/external/qrcodegen/QrCode.cpp:320-360 | fails exactly on unusable arguments; otherwise the finished symbol for its version, level, codewords and mask |
| `SymbolReader.FormatRoundTrip` | hashmonkey-core/external/qrcodegen/QrCode.cpp:446-451 | the format word determines level and mask |
| `SymbolReader.WordReadable` | hashmonkey-core/external/qrcodegen/QrCode.cpp:455-469 | both copies in a finished symbol hold the format word |
| `SymbolReader.VersionReadable` | hashmonkey-core/external/qrcodegen/QrCode.cpp:485-492 | both copies in a finished symbol from version 7 on hold the version |
| `SymbolReader.CodewordsReadable` | hashmonkey-core/external/qrcodegen/QrCode.cpp:333-356 | taking off the mask and following the scan gives the codewords |
| `SymbolReader.DecodeData` | hashmonkey-core/external/qrcodegen/QrCode.cpp:320-360 | a reader of the modules alone gets what the data codewords parse to |
| `SymbolReader.DamageCorrectable` | hashmonkey-core/external/qrcodegen/QrCode.hpp:243-248 | at most one data sequence is within correctable damage of a grid |
| `SymbolReader.SymbolExplained` | hashmonkey-core/external/qrcodegen/QrCode.hpp:243-248 | the data of a finished symbol is within correctable damage of it |
| `SymbolPictures.FindersShown` | hashmonkey-core/external/qrcodegen/QrCode.cpp:423-426 | in every finished symbol the three corners show the written-out picture of a finder and its separator |
| `SymbolPictures.AlignmentsShown` | hashmonkey-core/external/qrcodegen/QrCode.cpp:428-437 | in every finished symbol the cells around each pair of positions show the picture of an alignment pattern |
| `SymbolPictures.TimingShown` | hashmonkey-core/external/qrcodegen/QrCode.cpp:417-421 | in every finished symbol row 6 and column 6 alternate from dark between the finders, also across alignment patterns |
| `SymbolPictures.DarkModuleShown` | hashmonkey-core/external/qrcodegen/QrCode.cpp:469-469 | the module above the second format copy is dark in every symbol |
| `SymbolPictures.FinderLinesLook` | hashmonkey-core/external/qrcodegen/QrCode.cpp:496-505 | the row and the column through the centre of the first finder count as finder-like at both ends |
| `SymbolPictures.FinderSymmetric` | hashmonkey-core/external/qrcodegen/QrCode.cpp:496-505 | a finder has the same colours after swapping rows and columns |
| `SymbolPictures.FirstCopyPath` | hashmonkey-core/external/qrcodegen/QrCode.cpp:455-461 | the first copy of the format bits runs down column 8 and left along row 8, past the timing patterns |
| `SymbolPictures.SecondCopyPath` | hashmonkey-core/external/qrcodegen/QrCode.cpp:463-468 | the second copy runs left along row 8 from the right edge, then down column 8 to the lower edge |
| `SymbolPictures.VersionPath` | hashmonkey-core/external/qrcodegen/QrCode.cpp:485-492 | the version bits fill six rows of three, and the second copy mirrors them |
| `SymbolPictures.DataModuleShown` | hashmonkey-core/external/qrcodegen/QrCode.cpp:568-617 | the module of every data cell of a finished symbol: the bit of the codewords whose turn it is in the scan, or light after the last, inverted where the tile of the mask says so |
| `Encoder.EncodeSegments` | hashmonkey-core/external/qrcodegen/QrCode.cpp:255-317 | succeeds exactly if some version in the range fits; smallest version, best level, best mask; the modules decode to the segments |
| `Encoder.EncodeText` | hashmonkey-core/external/qrcodegen/QrCode.cpp:243-246 | succeeds exactly if some version fits, at the low level for every text of up to 2953 bytes; smallest version, best level, best mask; the modules decode to the text |
| `Encoder.EncodeBinary` | hashmonkey-core/external/qrcodegen/QrCode.cpp:249-252 | succeeds exactly if some version fits, at the low level for up to 2953 bytes and never for more; smallest version, best level, best mask; the modules decode to the bytes |
| `Encoder.BytesFit` | hashmonkey-core/external/qrcodegen/QrCode.hpp:268-274 | a byte segment fits some version at the low level exactly up to 2953 bytes, and no more at any level |
| `Encoder.TextFits` | hashmonkey-core/external/qrcodegen/QrCode.hpp:258-265 | text of up to 2953 bytes fits version 40 at the low level in every mode |
| `Encoder.CountNeverLimits` | hashmonkey-core/external/qrcodegen/QrCode.cpp:177-191 | in every version a text segment that fits the capacity also has a count that fits its field |
| `Encoder.MostCodewords` | hashmonkey-core/external/qrcodegen/QrCode.cpp:727-731 | no version and level holds more than version 40 at the low level |
| `RelayState.TxMeta.SetRelayMethod` | hashmonkey-core/src/blockchain_db/blockchain_db.cpp:78-107 | leaves the flags of the method and no other |
| `RelayState.TxMeta.UpgradeRelayMethod` | hashmonkey-core/src/blockchain_db/blockchain_db.cpp:137-151 | accepted exactly if the request is higher; then at most one flag is set and the method is the requested one |
| `RelayState.FlagsRoundTrip` | hashmonkey-core/src/blockchain_db/blockchain_db.cpp:109-135 | the flags set for a method are read as that method |
| `RelayState.SingleFlags` | hashmonkey-core/src/blockchain_db/blockchain_db.cpp:109-135 | single flags and methods correspond one to one |
| `RelayState.FlagMeanings` | hashmonkey-core/src/blockchain_db/blockchain_db.cpp:109-135 | which flag stands for which method; no flag, or several, count as fluff |
| `RelayState.UpgradeAllIsHighest` | hashmonkey-core/src/blockchain_db/blockchain_db.cpp:137-151 | from any flags, after any requests, the method is the highest of the first and all requested ones |
| `RelayState.UpgradeAllFlags` | hashmonkey-core/src/blockchain_db/blockchain_db.cpp:137-151 | the flags are the first ones, or a single flag |
| `RelayState.OrderIrrelevant` | hashmonkey-core/src/blockchain_db/blockchain_db.cpp:137-151 | requests in any order and number lead to the same flags |
| `RelayState.CategoriesKept` | hashmonkey-core/src/blockchain_db/blockchain_db.cpp:47-76 | once broadcasted or relayable, always so |
| `RelayState.CategoriesByRank` | hashmonkey-core/src/blockchain_db/blockchain_db.cpp:47-76 | each category as a stretch of the ladder: fluff and up, local and up, the first with none, everything |
| `RelayState.LegacyKept` | hashmonkey-core/src/blockchain_db/blockchain_db.cpp:47-76 | the exact condition for staying in the legacy category |
| `RelayState.LegacyLeft` | hashmonkey-core/src/blockchain_db/blockchain_db.cpp:47-76 | a request that leaves the legacy category |
| `RelayState.ReturnValueMeans` | hashmonkey-core/src/blockchain_db/blockchain_db.h:185-186 | the documented meaning of the result holds exactly if the method was another one before |
| `RelayState.RepeatedRequest` | hashmonkey-core/src/blockchain_db/blockchain_db.h:185-186 | a repeated request, for which it does not |
| `ChainLedger.AddKeysIff` | hashmonkey-core/src/blockchain_db/blockchain_db.cpp:205-221 | inputs are accepted exactly if they are supported and no key image is spent or repeated |
| `OutputTable.RemoveAdded` | hashmonkey-core/src/blockchain_db/lmdb/db_lmdb.cpp:1054-1201 | removing the output added last restores the lists |
| `OutputTable.UndoOutputs` | hashmonkey-core/src/blockchain_db/lmdb/db_lmdb.cpp:1144-1165 | removing all outputs of a transaction, last first, restores the lists if they are looked for where they were stored |
| `OutputTable.NotUndone` | hashmonkey-core/src/blockchain_db/lmdb/db_lmdb.cpp:1158-1164 | and does not restore them otherwise |
| `OutputTable.AddAfterGap` | hashmonkey-core/src/blockchain_db/lmdb/db_lmdb.cpp:2927-2947 | after a removal from the middle, output ids go on from the last one |
| `OutputTable.IndicesLead` | hashmonkey-core/src/blockchain_db/blockchain_db.cpp:225-247 | each index, in order, leads to its output and back to the transaction; its entry has the key, the unlock time, the height and the commitment of that very output |
| `ChainData.RestorableIff` | hashmonkey-core/src/blockchain_db/blockchain_db.cpp:233-245 | outputs are looked for where they were stored exactly if the two conditions for miner outputs agree or all amounts are 0 |
| `ChainData.OrdinaryRestorable` | hashmonkey-core/src/blockchain_db/blockchain_db.cpp:233-245 | this is so for transactions without a gen input and for miner transactions of version 1 and 2 |
| `ChainStore.UndoTransactionIff` | hashmonkey-core/src/blockchain_db/blockchain_db.cpp:336-350 | removing a transaction that was just added restores the store exactly under that condition |
| `ChainStore.NotRestored` | hashmonkey-core/src/blockchain_db/blockchain_db.cpp:336-350 | a transaction for which it does not |
| `ChainStore.PopAdded` | hashmonkey-core/src/blockchain_db/blockchain_db.cpp:314-350 | popping the block added last restores the whole store and returns its transactions in reverse order, if all its transactions are restorable |
| `ChainUndo.PopAddedExactly` | hashmonkey-core/src/blockchain_db/blockchain_db.cpp:250-350 | for every block, popping is the inverse of adding exactly if the places (amount and index) its outputs are stored at are, in some order, the places they are looked for; both are computed from the amounts and the list lengths before the block |
| `OutputPlaces.RestoredIff` | hashmonkey-core/src/blockchain_db/lmdb/db_lmdb.cpp:1144-1201 | removing added outputs from any places restores the table exactly if these are the places they were added at |
| `ChainUndo.PopAddedIff` | hashmonkey-core/src/blockchain_db/blockchain_db.cpp:250-350 | for a block in which at most one transaction is not restorable, popping is the inverse of adding exactly if none is |
| `ChainUndo.PopAddedIffMiner` | hashmonkey-core/src/blockchain_db/blockchain_db.cpp:250-350 | for a block whose other transactions have no gen input, exactly if the miner transaction is restorable |
| `ChainUndo.RestoresOnlyIfBalanced` | hashmonkey-core/src/blockchain_db/blockchain_db.cpp:250-350 | for every block, only if every list loses as many outputs as it gained |
| `ChainUndo.MisplacedBlockRestored` | hashmonkey-core/src/blockchain_db/blockchain_db.cpp:250-350 | a block with two transactions that are not restorable, accepted and popped, that restores the store |
| `ChainStore.AddBlockLengths` | hashmonkey-core/src/blockchain_db/blockchain_db.cpp:275-298 | every list, so also that of amount 0, grows by exactly the outputs stored under its amount |
| `ChainStore.RctBalance` | hashmonkey-core/src/blockchain_db/blockchain_db.cpp:275-298 | the reported and the stored number, with every term that can make them differ |
| `ChainStore.RctReportedIff` | hashmonkey-core/src/blockchain_db/blockchain_db.cpp:275-298 | the exact condition for the two to be equal, for every block |
| `ChainStore.RctReportedWithGen` | hashmonkey-core/src/blockchain_db/blockchain_db.cpp:275-298 | for a miner transaction with a gen input: it has version 2 or no output of amount 0, and no other version 2 transaction has a gen input and an amount that is not 0 |
| `ChainStore.RctMisreported` | hashmonkey-core/src/blockchain_db/blockchain_db.cpp:275-298 | a block that is accepted with one output under 0 and none reported |
| `ChainStore.StoredIndicesLead` | hashmonkey-core/src/blockchain_db/blockchain_db.cpp:225-247 | after a transaction is added, one index per output is stored, in order, and leads to its entry as in IndicesLead |
| `ChainIndex.RunLocated` | hashmonkey-core/src/blockchain_db/blockchain_db.cpp:225-247 | after every run of restorable blocks, each transaction of the current chain is stored with the height of its block, and each of its outputs is found under its stored index with its key, unlock time, height and commitment |
| `ChainIndex.RunAccumulates` | hashmonkey-core/src/blockchain_db/lmdb/db_lmdb.cpp:775-851 | after every such run whose blocks report right and, but for the first, accumulate, the number kept with the top block is the length of the amount-0 list |
| `ChainOrder.AddBlockEntryIff` | hashmonkey-core/src/blockchain_db/lmdb/db_lmdb.cpp:783-832 | a block is accepted exactly if its hash is new and it names the top block; the first one must not accumulate |
| `ChainOrder.RunLinked` | hashmonkey-core/src/blockchain_db/lmdb/db_lmdb.cpp:775-851 | after every run each block names the one below it, and heights and hashes correspond |
| `ChainOrder.RunNumbered` | hashmonkey-core/src/blockchain_db/lmdb/db_lmdb.cpp:894-974 | after every run the transactions of the chain are numbered 0, 1, 2 in its order, the miner transaction of a block first, and stored with its height |
| `ChainOrder.RunHasNoGaps` | hashmonkey-core/src/blockchain_db/lmdb/db_lmdb.cpp:1054-1108 | after every run of restorable blocks output ids are 0, 1, 2 and so on without gaps |
| `ChainRuns.PopBlockLedger` | hashmonkey-core/src/blockchain_db/blockchain_db.cpp:314-329 | a pop takes back exactly the key images, transactions and block that were added, whatever the output lists are |
| `ChainRuns.RunLedger` | hashmonkey-core/src/blockchain_db/blockchain_db.cpp:250-350 | after every run the key images, transactions and blocks in the store are those of the current chain |
| `ChainRuns.RunSpentKeys` | hashmonkey-core/src/blockchain_db/blockchain_db.cpp:250-350 | after every run the spent keys are the disjoint union of the key images of the current chain, and the height is its length |
| `ChainRuns.RunSound` | hashmonkey-core/src/blockchain_db/blockchain_db.cpp:250-350 | in every run, also past a pop that took outputs from wrong lists, output ids ascend and no list is empty |
| `ChainRuns.RunStore` | hashmonkey-core/src/blockchain_db/blockchain_db.cpp:250-350 | after every run of restorable blocks the whole store is the one that the current chain builds from nothing |
| `ChainRuns.PopStoreOf` | hashmonkey-core/src/blockchain_db/blockchain_db.cpp:314-329 | in such a run a pop never fails while there is a block |
| `ChainDb.BlockchainDB.AddSpentKey` | hashmonkey-core/src/blockchain_db/lmdb/db_lmdb.cpp:1259-1274 | a spent key image is refused, another one is added |
| `ChainDb.BlockchainDB.RemoveSpentKey` | hashmonkey-core/src/blockchain_db/lmdb/db_lmdb.cpp:1276-1296 | the key image is gone, whether it was there or not |
| `ChainDb.BlockchainDB.AddTransactionData` | hashmonkey-core/src/blockchain_db/lmdb/db_lmdb.cpp:894-974 | a known hash is refused; otherwise the transaction gets the next number |
| `ChainDb.BlockchainDB.AddInputs` | hashmonkey-core/src/blockchain_db/blockchain_db.cpp:205-221 | the loop over the inputs, failing at the first bad one, and whether one of them is a gen input |
| `ChainDb.BlockchainDB.AddTxOutputs` | hashmonkey-core/src/blockchain_db/blockchain_db.cpp:225-247 | the loop over the outputs; version 2 miner outputs go under amount 0; IndicesLead gives the entry of each |
| `ChainDb.BlockchainDB.AddTransaction` | hashmonkey-core/src/blockchain_db/blockchain_db.cpp:182-248 | the new store, or the error, of the specification that the lemmas of ChainStore are about |
| `ChainDb.BlockchainDB.RemoveTxOutputs` | hashmonkey-core/src/blockchain_db/lmdb/db_lmdb.cpp:1144-1165 | removes the outputs last first, under amount 0 for a single gen input |
| `ChainDb.BlockchainDB.RemoveTransaction` | hashmonkey-core/src/blockchain_db/blockchain_db.cpp:336-350 | the new store, or the error, of the specification |
| `ChainDb.BlockchainDB.AddBlock` | hashmonkey-core/src/blockchain_db/blockchain_db.cpp:250-307 | the new store, or the error, of the specification, and the height before |
| `ChainDb.BlockchainDB.PopBlock` | hashmonkey-core/src/blockchain_db/blockchain_db.cpp:314-329 | the new store, the block and its transactions, or the error, of the specification |
| `LockedTxn.BlockchainDb.BatchStart` | hashmonkey-core/src/blockchain_db/lmdb/db_lmdb.cpp:3851-3893 | starts a batch on the stored contents exactly if none is in progress |
| `LockedTxn.BlockchainDb.BatchStop` | hashmonkey-core/src/blockchain_db/lmdb/db_lmdb.cpp:3931-3958 | stores the batch, or throws with the batch untouched or discarded |
| `LockedTxn.BlockchainDb.BatchAbort` | hashmonkey-core/src/blockchain_db/lmdb/db_lmdb.cpp:3960-3981 | discards the batch, or throws with the batch untouched |
| `LockedTxn.LockedTXN.constructor` | hashmonkey-core/src/blockchain_db/locked_txn.h:43-46 | owns a batch exactly if it started one |
| `LockedTxn.LockedTXN.Commit` | hashmonkey-core/src/blockchain_db/locked_txn.h:47-47 | an active owner stops the batch and stays active if that throws; any other guard does nothing |
| `LockedTxn.LockedTXN.Abort` | hashmonkey-core/src/blockchain_db/locked_txn.h:48-49 | an active owner aborts the batch and stays active if that throws; any other guard does nothing |
| `LockedTxn.InnerScopesChangeNothing` | hashmonkey-core/src/blockchain_db/locked_txn.h:37-53 | a guard that did not start a batch changes nothing |
| `LockedTxn.RunKeepsInv` | hashmonkey-core/src/blockchain_db/locked_txn.h:37-53 | in every run, while a batch is in progress its guard is active and the stored contents are those of its start |
| `LockedTxn.OpenKeepsVisible` | hashmonkey-core/src/blockchain_db/locked_txn.h:43-46 | opening a scope changes nothing that is stored or seen |
| `LockedTxn.StepVisible` | hashmonkey-core/src/blockchain_db/locked_txn.h:37-53 | what is seen changes only by writes, and by batches that end without a successful commit |
| `LockedTxn.StepStores` | hashmonkey-core/src/blockchain_db/locked_txn.h:47-47 | a step that stores something stores the contents written, or those the batch saw |
| `LockedTxn.BatchSeesLastWrite` | hashmonkey-core/src/blockchain_db/locked_txn.h:37-53 | as long as a batch is in progress it sees the last write made in it, on top of what was seen before |
| `LockedTxn.ScopeStoresLastWrite` | hashmonkey-core/src/blockchain_db/locked_txn.h:43-47 | a scope whose own guard commits its batch stores the last write made while it was in progress, or what was stored before if there was none |
| `LockedTxn.SafeStepIff` | hashmonkey-core/src/blockchain_db/locked_txn.h:37-53 | a step ends only the caller's own batch, all or nothing, exactly if the batch in progress is the one the caller started |
| `LockedTxn.SafeStepIffNotFailed` | hashmonkey-core/src/blockchain_db/locked_txn.h:47-49 | after safe steps, the next one is safe exactly if it does not call a guard whose commit failed half-way while some batch is in progress |
| `LockedTxn.RunSafeIff` | hashmonkey-core/src/blockchain_db/locked_txn.h:37-53 | every run is safe exactly if no guard is called after its commit failed half-way while some batch is in progress |
| `LockedTxn.EndedForGood` | hashmonkey-core/src/blockchain_db/locked_txn.h:37-53 | a batch that has ended never comes back, so it is stored at most once |
| `LockedTxn.ScopeRestores` | hashmonkey-core/src/blockchain_db/locked_txn.h:43-49 | a scope in which no commit succeeds and nothing is written outside a batch restores the stored contents, for every body, after failing commits, aborts and inner scopes |
| `LockedTxn.UncommittedBatch` | hashmonkey-core/src/blockchain_db/locked_txn.h:43-49 | while the batch of a scope is in progress and calls are safe, nothing is stored unless its own guard commits |
| `LockedTxn.DisciplinedScopeRestores` | hashmonkey-core/src/blockchain_db/locked_txn.h:43-49 | if only innermost guards are called and aborts succeed, such a scope leaves no batch behind and restores what was visible, even after a commit that failed half-way |
| `LockedTxn.ScopeDiscards` | hashmonkey-core/src/blockchain_db/locked_txn.h:49-49 | a scope that still has its batch when it is left discards it |
| `LockedTxn.SafeWithoutFailingCommit` | hashmonkey-core/src/blockchain_db/locked_txn.h:37-53 | every step of every run is safe if no commit fails half-way, whichever guards are called |
| `LockedTxn.SafeWithInnermostCalls` | hashmonkey-core/src/blockchain_db/locked_txn.h:37-53 | every step is safe, however commits fail, if only the innermost guard is called and aborts succeed |
| `LockedTxn.OuterGuardEndsInnerBatch` | hashmonkey-core/src/blockchain_db/locked_txn.h:47-47 | after a failing commit an outer guard ends the batch of an inner one |
| `LockedTxn.OuterGuardInheritsBatch` | hashmonkey-core/src/blockchain_db/locked_txn.h:48-49 | an inner guard that cannot abort leaves its batch to such an outer guard |

## Left out

- The SVG output, getters and exception messages of the QR Code encoder: string output and one-line reads.
- The minimum distance of the format and version words: they are only 32 and 34 numbers, and nothing in the encoder relies on it.
- The search a real decoder uses to correct errors: the model states which data a damaged grid can stand for, not how to find them.
- Kanji segments: there is no factory for them; the parser handles the mode, so that the stream of any well-formed segment list is covered.
- Segments.MakeNumeric: character counts are mathematical integers, because the signed overflow beyond INT_MAX characters is undefined in the source.
- Segments.MakeAlphanumeric: character counts are mathematical integers, because the signed overflow beyond INT_MAX characters is undefined in the source.
- Hashing, serialization and pruning of blocks and transactions: hashes are fields of the model's blocks and transactions, and stored transactions are read back unchanged.
- The database engine, its cursors, timing counters and logging: tables are maps and sequences; appending a transaction number or an index that is not the highest is a failure, as in the engine.
- ChainDb.BlockchainDB.AddBlock: does not model the hard fork state (which a pop does not take back), the block weight, difficulty and coins, or 64-bit wrap-around of counters, because they do not interact with the tables.
- ChainDb.BlockchainDB.AddTransaction: after a failure the store is not described, because the transaction around the call rolls it back; `ChainRuns.Step` models that.
- Relay methods and categories outside the enumerations, and the metadata fields other than the five flags: no caller produces the former, and no modelled operation touches the latter.
- LockedTxn.LockedTXN.constructor: does not model a batch start that throws, because then there is no guard.
- Threads: the comment in the header rules out a batch from another thread.
- The one-time chain repair `fixup`, the configuration constants, the wallet user interface and the build tooling: lookups, input and output, or data.
