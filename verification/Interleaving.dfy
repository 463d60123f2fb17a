/**
 Splitting the data into blocks, completing each with its error correction bytes, and interleaving the
 blocks. A reader that knows the layout gets back the data and, for every block, a Reed-Solomon codeword.
 */
module Interleaving {
  import opened Arithmetic
  import opened CapacityTables
  import opened GaloisField
  import opened MinimumDistance
  import opened Outcomes
  import opened Polynomials
  import opened ReedSolomon
  import opened Sequences

  /**
   The first `numShort` blocks have `dataLen` data bytes, the others one more; all have `eccLen` error
   correction bytes.
   */
  datatype Layout = Layout(numBlocks: nat, numShort: nat, dataLen: nat, eccLen: nat) {

    ghost predicate Valid() {
      1 <= numShort <= numBlocks && 1 <= dataLen && 1 <= eccLen && dataLen + 1 + eccLen <= 255
    }

    function DataLength(j: nat): nat {
      dataLen + (if j < numShort then 0 else 1)
    }

    /** The data bytes before block `j`. */
    function Start(j: nat): nat {
      j * dataLen + (if j < numShort then 0 else j - numShort)
    }

    /** Row `i` of the padded blocks skips the short blocks when `i` is their padding byte. */
    predicate Present(i: nat, j: nat) {
      i != dataLen || j >= numShort
    }

    /** The codewords before row `i`. */
    function RowStart(i: nat): int {
      i * numBlocks - (if i > dataLen then numShort else 0)
    }

    /** The place of byte `i` of padded block `j` in the interleaved sequence. */
    function Place(i: nat, j: nat): int {
      RowStart(i) + (if i == dataLen then j - numShort else j)
    }

    /** The length of a padded block. */
    function RowCount(): nat {
      dataLen + 1 + eccLen
    }

    function Total(): int {
      RowStart(RowCount())
    }
  }

  /** The parameters computed at the head of `addEccAndInterleave`. */
  function MakeLayout(numBlocks: int, blockEccLen: int, raw: int): (l: Layout)
    requires 1 <= numBlocks && 1 <= blockEccLen && (blockEccLen + 1) * numBlocks <= raw < 255 * numBlocks
    ensures l.Valid()
  {
    Quotients(numBlocks, blockEccLen, raw);
    Layout(numBlocks, numBlocks - raw % numBlocks, raw / numBlocks - blockEccLen, blockEccLen)
  }

  lemma Quotients(b: int, e: int, raw: int)
    requires 1 <= b && 1 <= e && (e + 1) * b <= raw < 255 * b
    ensures 0 <= raw % b < b && 1 <= raw / b - e && raw / b + 1 <= 255
  {
    var q, r := raw / b, raw % b;
    assert raw == b * q + r;
    if q <= e {
      ProductAtMost(q, e, b);
    } else if q >= 255 {
      ProductAtMost(255, q, b);
    }
  }

  /** Block data lengths add up to the data, and the interleaved sequence has all the raw codewords. */
  lemma LayoutTotals(b: int, e: int, raw: int)
    requires 1 <= b && 1 <= e && (e + 1) * b <= raw < 255 * b
    ensures MakeLayout(b, e, raw).Start(b) == raw - e * b
    ensures MakeLayout(b, e, raw).Total() == raw
  {
    var q, r := raw / b, raw % b;
    assert raw == b * q + r;
    assert b * (q - e) == b * q - b * e;
    assert (q - e + 1 + e) * b == b * q + b;
  }

  function LayoutOf(ver: Version, ecl: Ecc): (l: Layout)
    ensures l.Valid()
  {
    hide BlocksOf, RawCodewords;
    EveryVersionSound(ver);
    assert BlocksSound(ver, ecl);
    MakeLayout(NumBlocks(ver, ecl), EccPerBlock(ver, ecl), RawCodewords(ver))
  }

  lemma LayoutSizes(ver: Version, ecl: Ecc)
    ensures var l := LayoutOf(ver, ecl);
            && l.numBlocks == NumBlocks(ver, ecl) && l.eccLen == EccPerBlock(ver, ecl)
            && l.Start(l.numBlocks) == NumDataCodewords(ver, ecl) && l.Total() == RawCodewords(ver)
  {
    hide BlocksOf, RawCodewords;
    EveryVersionSound(ver);
    assert BlocksSound(ver, ecl);
    LayoutTotals(NumBlocks(ver, ecl), EccPerBlock(ver, ecl), RawCodewords(ver));
  }

  // Reading

  ghost function BlockData(result: seq<Byte>, l: Layout, j: nat): seq<Byte>
    requires j < l.numBlocks && Readable(result, l)
  {
    seq<Byte>(l.DataLength(j), i requires 0 <= i < l.DataLength(j) => ReadAt(result, l, i, j))
  }

  ghost function BlockEcc(result: seq<Byte>, l: Layout, j: nat): seq<Byte>
    requires j < l.numBlocks && Readable(result, l)
  {
    seq<Byte>(l.eccLen, i requires 0 <= i < l.eccLen => ReadAt(result, l, l.dataLen + 1 + i, j))
  }

  /** Every place of the layout is in the sequence. */
  ghost predicate Readable(result: seq<Byte>, l: Layout) {
    forall i, j | 0 <= i < l.RowCount() && 0 <= j < l.numBlocks && l.Present(i, j) :: 0 <= l.Place(i, j) < |result|
  }

  ghost function ReadAt(result: seq<Byte>, l: Layout, i: nat, j: nat): Byte
    requires i < l.RowCount() && j < l.numBlocks && l.Present(i, j) && Readable(result, l)
  {
    result[l.Place(i, j)]
  }

  /** The data of the first `n` blocks. */
  ghost function ReadData(result: seq<Byte>, l: Layout, n: nat): seq<Byte>
    requires n <= l.numBlocks && Readable(result, l)
  {
    if n == 0 then [] else ReadData(result, l, n - 1) + BlockData(result, l, n - 1)
  }

  // Building the padded blocks

  ghost predicate IsPaddedBlock(block: seq<Byte>, l: Layout, data: seq<Byte>, j: nat)
    requires j < l.numBlocks && l.Start(j) + l.DataLength(j) <= |data|
  {
    var dat := data[l.Start(j)..l.Start(j) + l.DataLength(j)];
    && |block| == l.RowCount()
    && block[..l.DataLength(j)] == dat
    && IsRemainder(dat, Generator(l.eccLen)[1..], block[l.dataLen + 1..])
  }

  lemma StartNext(l: Layout, j: nat)
    ensures l.Start(j + 1) == l.Start(j) + l.DataLength(j)
  {}

  lemma {:induction false} StartMonotone(l: Layout, j: nat, k: nat)
    requires j <= k
    ensures l.Start(j) <= l.Start(k)
    decreases k - j
  {
    if j < k {
      StartMonotone(l, j + 1, k);
      StartNext(l, j);
    }
  }

  method BuildBlocks(data: seq<Byte>, l: Layout) returns (blocks: seq<seq<Byte>>)
    requires l.Valid() && |data| == l.Start(l.numBlocks)
    ensures |blocks| == l.numBlocks
    ensures forall j | 0 <= j < l.numBlocks ::
              l.Start(j) + l.DataLength(j) <= |data| && IsPaddedBlock(blocks[j], l, data, j)
  {
    hide IsRemainder, Generator;
    blocks := [];
    var div := ComputeDivisor(l.eccLen);
    var rsDiv := div.value;
    assert rsDiv == Generator(l.eccLen)[1..];
    var k := 0;
    for i := 0 to l.numBlocks
      invariant k == l.Start(i)
      invariant |blocks| == i
      invariant forall j | 0 <= j < i ::
                  l.Start(j) + l.DataLength(j) <= |data| && IsPaddedBlock(blocks[j], l, data, j)
    {
      StartNext(l, i);
      StartMonotone(l, i + 1, l.numBlocks);
      var dat := data[k..k + l.dataLen + (if i < l.numShort then 0 else 1)];
      ghost var plain := dat;
      k := k + |dat|;
      var ecc := ComputeRemainder(dat, rsDiv);
      RemainderLength(dat, rsDiv, ecc);
      if i < l.numShort {
        dat := dat + [0];
      }
      dat := dat + ecc;
      assert dat[..|plain|] == plain && dat[l.dataLen + 1..] == ecc;
      blocks := blocks + [dat];
    }
  }

  lemma RemainderLength(data: Poly, divisor: Poly, remainder: Poly)
    requires IsRemainder(data, divisor, remainder)
    ensures |remainder| == |divisor|
  {}

  // Interleaving

  /** The rows before `i` and, in row `i`, the blocks before `j` are in place. */
  ghost predicate Placed(result: seq<Byte>, blocks: seq<seq<Byte>>, l: Layout, i: nat, j: nat)
    requires |blocks| == l.numBlocks && forall k | 0 <= k < |blocks| :: |blocks[k]| == l.RowCount()
    requires i <= l.RowCount()
  {
    && (forall r, c | 0 <= r < i && 0 <= c < l.numBlocks && l.Present(r, c) ::
          0 <= l.Place(r, c) < |result| && result[l.Place(r, c)] == blocks[c][r])
    && (i < l.RowCount() ==> forall c | 0 <= c < j && c < l.numBlocks && l.Present(i, c) ::
          0 <= l.Place(i, c) < |result| && result[l.Place(i, c)] == blocks[c][i])
  }

  /** The codewords written when row `i` has been written up to block `j`. */
  ghost function Written(l: Layout, i: nat, j: nat): int {
    l.RowStart(i) + (if i != l.dataLen then j else if j < l.numShort then 0 else j - l.numShort)
  }

  lemma PlacedNext(result: seq<Byte>, blocks: seq<seq<Byte>>, l: Layout, i: nat, j: nat)
    requires |blocks| == l.numBlocks && forall k | 0 <= k < |blocks| :: |blocks[k]| == l.RowCount()
    requires i < l.RowCount() && j < l.numBlocks && Placed(result, blocks, l, i, j) && |result| == Written(l, i, j)
    ensures if l.Present(i, j)
            then Placed(result + [blocks[j][i]], blocks, l, i, j + 1) && |result| + 1 == Written(l, i, j + 1)
            else Placed(result, blocks, l, i, j + 1) && |result| == Written(l, i, j + 1)
  {}

  lemma PlacedRow(result: seq<Byte>, blocks: seq<seq<Byte>>, l: Layout, i: nat)
    requires |blocks| == l.numBlocks && forall k | 0 <= k < |blocks| :: |blocks[k]| == l.RowCount()
    requires l.Valid() && i < l.RowCount() && Placed(result, blocks, l, i, l.numBlocks)
    ensures Placed(result, blocks, l, i + 1, 0) && Written(l, i, l.numBlocks) == Written(l, i + 1, 0)
  {
    assert (i + 1) * l.numBlocks == i * l.numBlocks + l.numBlocks;
  }

  method Interleave(blocks: seq<seq<Byte>>, l: Layout) returns (result: seq<Byte>)
    requires l.Valid() && |blocks| == l.numBlocks && forall k | 0 <= k < |blocks| :: |blocks[k]| == l.RowCount()
    ensures |result| == l.Total()
    ensures Placed(result, blocks, l, l.RowCount(), 0)
  {
    hide Placed;
    result := [];
    NothingPlaced(blocks, l);
    for i := 0 to |blocks[0]|
      invariant Placed(result, blocks, l, i, 0) && |result| == Written(l, i, 0)
    {
      for j := 0 to |blocks|
        invariant Placed(result, blocks, l, i, j) && |result| == Written(l, i, j)
      {
        PlacedNext(result, blocks, l, i, j);
        if i != l.dataLen || j >= l.numShort {
          result := result + [blocks[j][i]];
        }
      }
      PlacedRow(result, blocks, l, i);
    }
  }

  lemma NothingPlaced(blocks: seq<seq<Byte>>, l: Layout)
    requires |blocks| == l.numBlocks && forall k | 0 <= k < |blocks| :: |blocks[k]| == l.RowCount()
    ensures Placed([], blocks, l, 0, 0)
  {}

  // Every place is taken exactly once

  lemma RowStartNext(l: Layout, i: nat)
    requires l.Valid()
    ensures l.RowStart(i + 1) == l.RowStart(i) + if i == l.dataLen then l.numBlocks - l.numShort else l.numBlocks
  {
    assert (i + 1) * l.numBlocks == i * l.numBlocks + l.numBlocks;
  }

  lemma {:induction false} RowStartsAscend(l: Layout, i: nat, k: nat)
    requires l.Valid() && i <= k
    ensures l.RowStart(i) <= l.RowStart(k)
  {
    if i < k {
      RowStartsAscend(l, i, k - 1);
      RowStartNext(l, k - 1);
    }
  }

  /** No two bytes of the blocks have the same place. */
  lemma PlacesDistinct(l: Layout, i: nat, j: nat, i': nat, j': nat)
    requires l.Valid() && j < l.numBlocks && j' < l.numBlocks && l.Present(i, j) && l.Present(i', j')
    ensures l.Place(i, j) == l.Place(i', j') <==> i == i' && j == j'
  {
    RowStartNext(l, i);
    RowStartNext(l, i');
    if i < i' {
      RowStartsAscend(l, i + 1, i');
    } else if i' < i {
      RowStartsAscend(l, i' + 1, i);
    }
  }

  /** Every place belongs to a byte of the blocks. */
  lemma {:induction false} PlacesCover(l: Layout, n: nat, p: nat) returns (i: nat, j: nat)
    requires l.Valid() && p < l.RowStart(n)
    ensures i < n && j < l.numBlocks && l.Present(i, j) && l.Place(i, j) == p
    decreases n
  {
    NoRows(l);
    var k: nat := n - 1;
    RowStartNext(l, k);
    if p < l.RowStart(k) {
      i, j := PlacesCover(l, k, p);
    } else {
      i, j := k, p - l.RowStart(k) + if k == l.dataLen then l.numShort else 0;
    }
  }

  lemma NoRows(l: Layout)
    ensures l.RowStart(0) == 0
  {}

  /** The interleaved sequence has every byte that is not padding at its own place, and no other byte. */
  lemma InterleavedExactly(result: seq<Byte>, blocks: seq<seq<Byte>>, l: Layout, p: nat) returns (i: nat, j: nat)
    requires l.Valid() && |blocks| == l.numBlocks && forall k | 0 <= k < |blocks| :: |blocks[k]| == l.RowCount()
    requires |result| == l.Total() && Placed(result, blocks, l, l.RowCount(), 0) && p < |result|
    ensures i < l.RowCount() && j < l.numBlocks && l.Present(i, j) && l.Place(i, j) == p && result[p] == blocks[j][i]
    ensures forall i': nat, j': nat | j' < l.numBlocks && l.Present(i', j') && l.Place(i', j') == p ::
              i' == i && j' == j
  {
    i, j := PlacesCover(l, l.RowCount(), p);
    forall i': nat, j': nat | j' < l.numBlocks && l.Present(i', j') && l.Place(i', j') == p
      ensures i' == i && j' == j
    {
      PlacesDistinct(l, i, j, i', j');
    }
  }

  // addEccAndInterleave

  /** What a reader finds: the data in order, and error correction bytes that complete every block. */
  ghost predicate Holds(result: seq<Byte>, l: Layout, data: seq<Byte>) {
    && Readable(result, l)
    && ReadData(result, l, l.numBlocks) == data
    && forall j | 0 <= j < l.numBlocks ::
         IsRemainder(BlockData(result, l, j), Generator(l.eccLen)[1..], BlockEcc(result, l, j))
  }

  lemma {:induction false} ReadsData(result: seq<Byte>, blocks: seq<seq<Byte>>, l: Layout, data: seq<Byte>, n: nat)
    requires l.Valid() && n <= l.numBlocks == |blocks| && Readable(result, l) && l.Start(n) <= |data|
    requires forall j | 0 <= j < n ::
               l.Start(j) + l.DataLength(j) <= |data|
               && BlockData(result, l, j) == data[l.Start(j)..l.Start(j) + l.DataLength(j)]
    ensures ReadData(result, l, n) == data[..l.Start(n)]
  {
    hide BlockData, Readable;
    if n > 0 {
      var m, s := l.Start(n - 1), l.Start(n);
      StartNext(l, n - 1);
      ReadsData(result, blocks, l, data, n - 1);
      assert BlockData(result, l, n - 1) == data[m..s];
      SliceJoin(data, m, s);
    }
  }

  lemma PlacedBlock(result: seq<Byte>, blocks: seq<seq<Byte>>, l: Layout, data: seq<Byte>, j: nat)
    requires l.Valid() && |blocks| == l.numBlocks && forall k | 0 <= k < |blocks| :: |blocks[k]| == l.RowCount()
    requires Placed(result, blocks, l, l.RowCount(), 0) && Readable(result, l)
    requires j < l.numBlocks && l.Start(j) + l.DataLength(j) <= |data| && IsPaddedBlock(blocks[j], l, data, j)
    ensures BlockData(result, l, j) == data[l.Start(j)..l.Start(j) + l.DataLength(j)]
    ensures IsRemainder(BlockData(result, l, j), Generator(l.eccLen)[1..], BlockEcc(result, l, j))
  {
    hide IsRemainder, Generator, Placed, Readable, ReadAt;
    forall i | 0 <= i < l.DataLength(j)
      ensures BlockData(result, l, j)[i] == blocks[j][i]
    {
      PlacedAt(result, blocks, l, i, j);
    }
    assert BlockData(result, l, j) == blocks[j][..l.DataLength(j)];
    forall i | 0 <= i < l.eccLen
      ensures BlockEcc(result, l, j)[i] == blocks[j][l.dataLen + 1 + i]
    {
      PlacedAt(result, blocks, l, l.dataLen + 1 + i, j);
    }
    assert BlockEcc(result, l, j) == blocks[j][l.dataLen + 1..];
  }

  lemma PlacedAt(result: seq<Byte>, blocks: seq<seq<Byte>>, l: Layout, i: nat, j: nat)
    requires |blocks| == l.numBlocks && forall k | 0 <= k < |blocks| :: |blocks[k]| == l.RowCount()
    requires Placed(result, blocks, l, l.RowCount(), 0) && Readable(result, l)
    requires i < l.RowCount() && j < l.numBlocks && l.Present(i, j)
    ensures ReadAt(result, l, i, j) == blocks[j][i]
  {}

  method AddEccAndInterleave(data: seq<Byte>, ver: Version, ecl: Ecc) returns (r: Result<seq<Byte>>)
    ensures r.Success? <==> |data| == NumDataCodewords(ver, ecl)
    ensures r.Failure? ==> r.error == InvalidArgument
    ensures r.Success? ==> |r.value| == RawCodewords(ver) && Holds(r.value, LayoutOf(ver, ecl), data)
  {
    hide BlocksOf, RawCodewords, IsPaddedBlock, Readable, Placed, ReadData, BlockData, BlockEcc, IsRemainder, Generator;
    if |data| != NumDataCodewords(ver, ecl) {
      return Failure(InvalidArgument);
    }
    var l := LayoutOf(ver, ecl);
    LayoutSizes(ver, ecl);
    var blocks := BuildBlocks(data, l);
    forall j | 0 <= j < l.numBlocks
      ensures |blocks[j]| == l.RowCount()
    {
      PaddedLength(blocks[j], l, data, j);
    }
    var result := Interleave(blocks, l);
    PlacedReadable(result, blocks, l);
    forall j | 0 <= j < l.numBlocks
      ensures BlockData(result, l, j) == data[l.Start(j)..l.Start(j) + l.DataLength(j)]
      ensures IsRemainder(BlockData(result, l, j), Generator(l.eccLen)[1..], BlockEcc(result, l, j))
    {
      PlacedBlock(result, blocks, l, data, j);
    }
    ReadsData(result, blocks, l, data, l.numBlocks);
    assert data[..|data|] == data;
    if |result| != RawCodewords(ver) {
      return Failure(AssertionError);
    }
    r := Success(result);
  }

  lemma PaddedLength(block: seq<Byte>, l: Layout, data: seq<Byte>, j: nat)
    requires j < l.numBlocks && l.Start(j) + l.DataLength(j) <= |data| && IsPaddedBlock(block, l, data, j)
    ensures |block| == l.RowCount()
  {}

  lemma PlacedReadable(result: seq<Byte>, blocks: seq<seq<Byte>>, l: Layout)
    requires |blocks| == l.numBlocks && forall k | 0 <= k < |blocks| :: |blocks[k]| == l.RowCount()
    requires Placed(result, blocks, l, l.RowCount(), 0)
    ensures Readable(result, l)
  {}

  // What a reader can make of damaged blocks

  ghost function Block(result: seq<Byte>, l: Layout, j: nat): seq<Byte>
    requires j < l.numBlocks && Readable(result, l)
  {
    BlockData(result, l, j) + BlockEcc(result, l, j)
  }

  lemma BlockIsCodeword(result: seq<Byte>, l: Layout, data: seq<Byte>, j: nat)
    requires l.Valid() && Holds(result, l, data) && j < l.numBlocks
    ensures |Block(result, l, j)| <= 255 && IsCodeword(Block(result, l, j), l.eccLen)
  {
    hide IsRemainder, Generator, IsCodeword, ReadData, Readable;
    RemainderIffCodeword(BlockData(result, l, j), l.eccLen, BlockEcc(result, l, j));
  }

  lemma {:induction false} SameBlocksSameData(a: seq<Byte>, b: seq<Byte>, l: Layout, n: nat)
    requires Readable(a, l) && Readable(b, l) && n <= l.numBlocks
    requires forall j | 0 <= j < n :: BlockData(a, l, j) == BlockData(b, l, j)
    ensures ReadData(a, l, n) == ReadData(b, l, n)
  {
    hide BlockData, Readable;
    if n > 0 {
      SameBlocksSameData(a, b, l, n - 1);
    }
  }

  /**
   Suppose a reader received blocks `damaged`, each with at most half as many wrong bytes as error
   correction bytes, of a sequence holding `data`. Then no sequence holding other data is as near.
   */
  lemma DataDetermined(a: seq<Byte>, b: seq<Byte>, damaged: seq<seq<Byte>>, l: Layout, data: seq<Byte>,
                       other: seq<Byte>)
    requires l.Valid() && Holds(a, l, data) && Holds(b, l, other) && |damaged| == l.numBlocks
    requires forall j | 0 <= j < l.numBlocks :: Near(a, damaged, l, j) && Near(b, damaged, l, j)
    ensures data == other
  {
    hide IsCodeword, Block, Distance, BlockEcc, BlockData, ReadData;
    forall j | 0 <= j < l.numBlocks
      ensures BlockData(a, l, j) == BlockData(b, l, j)
    {
      BlockIsCodeword(a, l, data, j);
      BlockIsCodeword(b, l, other, j);
      assert Near(a, damaged, l, j) && Near(b, damaged, l, j);
      UniqueDecoding(Block(a, l, j), Block(b, l, j), damaged[j], l.eccLen);
      BlockParts(a, l, j);
      BlockParts(b, l, j);
    }
    SameBlocksSameData(a, b, l, l.numBlocks);
  }

  ghost predicate Near(result: seq<Byte>, damaged: seq<seq<Byte>>, l: Layout, j: nat)
    requires j < l.numBlocks == |damaged| && Readable(result, l)
  {
    && |damaged[j]| == |Block(result, l, j)|
    && 2 * Distance(Block(result, l, j), damaged[j]) <= l.eccLen
  }

  lemma BlockParts(result: seq<Byte>, l: Layout, j: nat)
    requires j < l.numBlocks && Readable(result, l)
    ensures |Block(result, l, j)| >= l.DataLength(j)
            && BlockData(result, l, j) == Block(result, l, j)[..l.DataLength(j)]
  {}
}
