/**
 From segments to data codewords: the smallest version that holds them, the highest error correction
 level that still does, then headers, payloads, terminator and padding packed into bytes. A reader of
 the codewords gets the segments back.
 */
module DataCodewords {
  import opened Arithmetic
  import opened BinaryNumbers
  import opened BitStrings
  import opened BytePacking
  import opened CapacityTables
  import opened GaloisField
  import opened Options
  import opened Outcomes
  import opened Segments
  import opened SegmentStream

  function CapacityBits(ver: Version, ecl: Ecc): int {
    8 * NumDataCodewords(ver, ecl)
  }

  /** The segments can be written in a symbol of this version and level. */
  ghost predicate Fits(segs: seq<Segment>, ver: Version, ecl: Ecc) {
    CountsFit(segs, ver) && TotalLength(segs, ver) <= CapacityBits(ver, ecl)
  }

  lemma CapacityRange(ver: Version, ecl: Ecc)
    ensures 8 <= CapacityBits(ver, ecl) <= 29648
  {
    hide BlocksOf, NumRawDataModules, EccPerBlock, NumBlocks;
    EveryVersionSound(ver);
    RawModulesInRange(ver);
    assert BlocksSound(ver, ecl);
    BlocksTake(EccPerBlock(ver, ecl), NumBlocks(ver, ecl), RawCodewords(ver));
  }

  lemma BlocksTake(e: int, b: int, raw: int)
    requires 1 <= b && 1 <= e && (e + 1) * b <= raw
    ensures 1 <= raw - e * b <= raw
  {
    assert (e + 1) * b == e * b + b;
    ProductPositive(e, b);
  }

  /** Less error correction, more data. */
  lemma CapacityFalls(ver: Version, l: Ecc, m: Ecc)
    requires l.Ordinal() <= m.Ordinal()
    ensures CapacityBits(ver, m) <= CapacityBits(ver, l)
  {
    hide BlocksOf, RawCodewords;
    EveryVersionSound(ver);
  }

  // Choosing the version and the level

  predicate ValidArguments(minVersion: int, maxVersion: int, mask: int) {
    MIN_VERSION <= minVersion <= maxVersion <= MAX_VERSION && -1 <= mask <= 7
  }

  /** The search of `encodeSegments`. `Failure` stands for the exception data_too_long. */
  method ChooseVersion(segs: seq<Segment>, ecl: Ecc, minVersion: Version, maxVersion: Version)
      returns (r: Result<(Version, Int32)>)
    requires minVersion <= maxVersion
    ensures r.Failure? ==>
            r.error == DataTooLong && forall v: Version | minVersion <= v <= maxVersion :: !Fits(segs, v, ecl)
    ensures r.Success? ==>
              && minVersion <= r.value.0 <= maxVersion
              && Fits(segs, r.value.0, ecl)
              && (forall v: Version | minVersion <= v < r.value.0 :: !Fits(segs, v, ecl))
              && r.value.1 as int == TotalLength(segs, r.value.0)
  {
    hide CapacityBits, CountsFit, TotalLength;
    var version: Version := minVersion;
    while true
      invariant minVersion <= version <= maxVersion
      invariant forall v: Version | minVersion <= v < version :: !Fits(segs, v, ecl)
      decreases maxVersion - version
    {
      CapacityRange(version, ecl);
      var capacity := CapacityBits(version, ecl);
      var used := GetTotalBits(segs, version);
      if used != -1 && used as int <= capacity {
        return Success((version, used));
      }
      assert !Fits(segs, version, ecl);
      if version >= maxVersion {
        return Failure(DataTooLong);
      }
      version := version + 1;
    }
  }

  /** The levels that hold `used` bits are exactly those up to `best`, the requested one among them. */
  ghost predicate IsBestLevel(used: int, ver: Version, ecl: Ecc, best: Ecc) {
    && ecl.Ordinal() <= best.Ordinal()
    && forall l: Ecc :: used <= CapacityBits(ver, l) <==> l.Ordinal() <= best.Ordinal()
  }

  /** The boosting loop runs from Medium to High and may first lower the level; it never ends lower. */
  method BoostLevel(used: int, ver: Version, ecl: Ecc, boostEcl: bool) returns (best: Ecc)
    requires used <= CapacityBits(ver, ecl)
    ensures if boostEcl then IsBestLevel(used, ver, ecl, best) else best == ecl
  {
    hide CapacityBits;
    best := ecl;
    var levels := [Medium, Quartile, High];
    for i := 0 to 3
      invariant used <= CapacityBits(ver, best)
      invariant !boostEcl ==> best == ecl
      invariant boostEcl ==>
                forall j | 0 <= j < i && used <= CapacityBits(ver, levels[j]) :: best.Ordinal() >= levels[j].Ordinal()
    {
      if boostEcl && used <= CapacityBits(ver, levels[i]) {
        best := levels[i];
      }
    }
    if boostEcl {
      forall l: Ecc
        ensures used <= CapacityBits(ver, l) <==> l.Ordinal() <= best.Ordinal()
      {
        if l.Ordinal() <= best.Ordinal() {
          CapacityFalls(ver, l, best);
        } else {
          assert l == levels[l.Ordinal() - 1];
        }
      }
    }
  }

  // Terminator and padding

  function Zeros(n: nat): seq<bool> {
    seq(n, _ => false)
  }

  const PAD_FIRST := 0xEC
  const PAD_SECOND := 0x11

  /** `n` padding bytes, 0xEC and 0x11 in turn. */
  function PadBits(n: nat): (bits: seq<bool>)
    ensures |bits| == 8 * n
  {
    if n == 0 then [] else PadBits(n - 1) + ToBits(if n % 2 == 1 then PAD_FIRST else PAD_SECOND, 8)
  }

  /** The zero bits after `n` data bits: a terminator of at most four, then up to a whole byte. */
  function FillLength(n: nat, capacity: nat): (f: nat)
    requires n <= capacity && capacity % 8 == 0
    ensures n + f <= capacity && (n + f) % 8 == 0
  {
    var t := if capacity - n < 4 then capacity - n else 4;
    t + (8 - (n + t) % 8) % 8
  }

  /** The padding bytes after that. */
  function PadCount(n: nat, capacity: nat): (k: nat)
    requires n <= capacity && capacity % 8 == 0
    ensures n + FillLength(n, capacity) + 8 * k == capacity
  {
    hide FillLength;
    (capacity - n - FillLength(n, capacity)) / 8
  }

  function Padded(bits: seq<bool>, capacity: nat): (padded: seq<bool>)
    requires |bits| <= capacity && capacity % 8 == 0
    ensures |padded| == capacity
  {
    bits + Zeros(FillLength(|bits|, capacity)) + PadBits(PadCount(|bits|, capacity))
  }

  /** What follows the data is a terminator for any reader. */
  lemma PaddingTerminates(bits: seq<bool>, capacity: nat)
    requires |bits| <= capacity && capacity % 8 == 0
    ensures IsTerminator(Padded(bits, capacity)[|bits|..])
  {
    hide PadBits;
    var f := FillLength(|bits|, capacity);
    var tail := Padded(bits, capacity)[|bits|..];
    assert tail == Zeros(f) + PadBits(PadCount(|bits|, capacity));
    if capacity - |bits| >= 4 {
      assert tail[..4] == Zeros(4);
    }
  }

  /** Reading the padded stream gives back the segments. */
  lemma ParsePadded(segs: seq<Segment>, ver: Version, capacity: nat)
    requires CountsFit(segs, ver) && TotalLength(segs, ver) <= capacity && capacity % 8 == 0
    requires forall i | 0 <= i < |segs| :: WellFormed(segs[i])
    ensures Parse(Padded(StreamBits(segs, ver), capacity), ver) == Some(segs)
  {
    hide Padded, Parse, StreamBits, IsTerminator;
    var bits := StreamBits(segs, ver);
    var all := Padded(bits, capacity);
    PaddingTerminates(bits, capacity);
    PaddedStarts(bits, capacity);
    ParseStream(segs, all[|bits|..], ver);
    assert all == bits + all[|bits|..];
  }

  lemma PaddedStarts(bits: seq<bool>, capacity: nat)
    requires |bits| <= capacity && capacity % 8 == 0
    ensures Padded(bits, capacity)[..|bits|] == bits
  {}

  // Writing the bits

  method WriteSegments(segs: seq<Segment>, ver: Version) returns (bb: BitBuffer)
    requires CountsFit(segs, ver)
    ensures fresh(bb)
    ensures bb.bits == StreamBits(segs, ver)
  {
    hide Pow2, ToBits, StreamBits, CountFits;
    bb := new BitBuffer();
    assert StreamBits([], ver) == [] by { EmptyStream(ver); }
    for i := 0 to |segs|
      invariant fresh(bb)
      invariant bb.bits == StreamBits(segs[..i], ver)
    {
      var seg := segs[i];
      assert CountFits(seg, ver);
      HeaderFields(seg, ver);
      var ok := bb.AppendBits(seg.mode.ModeBits(), 4);
      assert ok;
      ok := bb.AppendBits(seg.numChars, seg.mode.CharCountBits(ver));
      assert ok;
      bb.bits := bb.bits + seg.data;
      StreamSnoc(segs, i, ver);
    }
    assert segs[..|segs|] == segs;
  }

  lemma EmptyStream(ver: Version)
    ensures StreamBits([], ver) == []
  {}

  lemma StreamSnoc(segs: seq<Segment>, i: nat, ver: Version)
    requires i < |segs|
    ensures StreamBits(segs[..i + 1], ver) ==
            StreamBits(segs[..i], ver) + ToBits(segs[i].mode.ModeBits(), 4)
            + ToBits(segs[i].numChars, segs[i].mode.CharCountBits(ver)) + segs[i].data
  {
    hide ToBits;
    assert segs[..i + 1][..i] == segs[..i];
  }

  lemma HeaderFields(seg: Segment, ver: Version)
    requires CountFits(seg, ver)
    ensures seg.mode.ModeBits() < Pow2(4) && seg.mode.CharCountBits(ver) <= 16
    ensures seg.numChars < Pow2(seg.mode.CharCountBits(ver)) && seg.numChars < UINT32_LIMIT
  {
    ModeRoundTrip(seg.mode);
    Pow2Monotone(seg.mode.CharCountBits(ver), 16);
    assert Pow2(16) == 65536 by { assert Pow2(8) == 256 && Pow2(16) == 256 * Pow2(8); }
  }

  lemma {:induction false} ToBitsOfZero(n: nat)
    ensures ToBits(0, n) == Zeros(n)
  {
    if n > 0 {
      ToBitsOfZero(n - 1);
    }
  }

  lemma PadToggles()
    ensures Xor(PAD_FIRST, Xor(PAD_FIRST, PAD_SECOND)) == PAD_SECOND
    ensures Xor(PAD_SECOND, Xor(PAD_FIRST, PAD_SECOND)) == PAD_FIRST
  {
    hide Xor;
    XorAssociates(PAD_FIRST, PAD_FIRST, PAD_SECOND);
    XorCancels(PAD_FIRST, PAD_FIRST);
    XorZero(PAD_SECOND);
    XorCommutes(PAD_FIRST, PAD_SECOND);
    XorAssociates(PAD_SECOND, PAD_SECOND, PAD_FIRST);
    XorCancels(PAD_SECOND, PAD_SECOND);
    XorZero(PAD_FIRST);
  }

  /** The terminator, then zero bits to a whole byte. */
  method Terminate(bb: BitBuffer, capacity: nat)
    requires |bb.bits| <= capacity && capacity % 8 == 0
    modifies bb
    ensures bb.bits == old(bb.bits) + Zeros(FillLength(|old(bb.bits)|, capacity))
  {
    hide Pow2, ToBits;
    var t := if 4 < capacity - |bb.bits| then 4 else capacity - |bb.bits|;
    var ok := bb.AppendBits(0, t);
    assert ok;
    var z := (8 - |bb.bits| % 8) % 8;
    ok := bb.AppendBits(0, z);
    assert ok;
    ToBitsOfZero(t);
    ToBitsOfZero(z);
    assert Zeros(t) + Zeros(z) == Zeros(t + z);
  }

  /** Alternating padding bytes until the capacity is reached. */
  method Fill(bb: BitBuffer, capacity: nat, ghost count: nat)
    requires |bb.bits| + 8 * count == capacity
    modifies bb
    ensures bb.bits == old(bb.bits) + PadBits(count)
  {
    hide Pow2, ToBits, Xor;
    var padByte: Byte := PAD_FIRST;
    PadToggles();
    EightBits();
    ghost var n := 0;
    while |bb.bits| < capacity
      invariant 0 <= n <= count
      invariant bb.bits == old(bb.bits) + PadBits(n)
      invariant padByte == if n % 2 == 0 then PAD_FIRST else PAD_SECOND
      decreases count - n
    {
      var ok := bb.AppendBits(padByte, 8);
      assert ok;
      padByte := Xor(padByte, Xor(PAD_FIRST, PAD_SECOND));
      n := n + 1;
    }
  }

  datatype Encoded = Encoded(version: Version, ecl: Ecc, codewords: seq<Byte>)

  /**
   `encodeSegments` up to the construction of the symbol. Its four internal checks cannot fail: the
   only exceptions are for arguments out of range and for data that fit no version in the range.
   */
  method EncodeData(segs: seq<Segment>, ecl: Ecc, minVersion: int, maxVersion: int, mask: int, boostEcl: bool)
      returns (r: Result<Encoded>)
    ensures r == Failure(InvalidArgument) <==> !ValidArguments(minVersion, maxVersion, mask)
    ensures r.Failure? ==> r.error == InvalidArgument || r.error == DataTooLong
    ensures r == Failure(DataTooLong) ==> forall v: Version | minVersion <= v <= maxVersion :: !Fits(segs, v, ecl)
    ensures r.Success? ==> IsSmallestVersion(segs, ecl, minVersion, maxVersion, r.value.version)
    ensures r.Success? ==>
              if boostEcl then IsBestLevel(TotalLength(segs, r.value.version), r.value.version, ecl, r.value.ecl)
              else r.value.ecl == ecl
    ensures r.Success? ==> HoldsSegments(r.value, segs)
  {
    hide Fits, TotalLength, HoldsSegments, IsBestLevel;
    if !(MIN_VERSION <= minVersion && minVersion <= maxVersion && maxVersion <= MAX_VERSION) || mask < -1 || mask > 7 {
      return Failure(InvalidArgument);
    }
    var chosen := ChooseVersion(segs, ecl, minVersion, maxVersion);
    if chosen.Failure? {
      return Failure(DataTooLong);
    }
    var (version, dataUsedBits) := chosen.value;
    if dataUsedBits == -1 {
      return Failure(AssertionError);
    }
    FitsMeans(segs, version, ecl);
    var level := BoostLevel(dataUsedBits as int, version, ecl, boostEcl);
    LevelHolds(dataUsedBits as int, version, ecl, boostEcl, level);
    FitsMeans(segs, version, level);
    r := WriteCodewords(segs, version, level, dataUsedBits as int);
  }

  /** The second half of `encodeSegments`: bits, terminator, padding and packing, with its checks. */
  method WriteCodewords(segs: seq<Segment>, version: Version, level: Ecc, dataUsedBits: int)
      returns (r: Result<Encoded>)
    requires Fits(segs, version, level) && dataUsedBits == TotalLength(segs, version)
    ensures r.Success? && r.value.version == version && r.value.ecl == level
    ensures HoldsSegments(r.value, segs)
  {
    hide CapacityBits, TotalLength, CountsFit, StreamBits, Padded, PadBits, PadCount, FillLength, NumDataCodewords;
    CapacityIs(version, level);
    CapacityRange(version, level);
    var bb := WriteSegments(segs, version);
    if |bb.bits| != dataUsedBits {
      return Failure(AssertionError);
    }
    var capacity := NumDataCodewords(version, level) * 8;
    if |bb.bits| > capacity {
      return Failure(AssertionError);
    }
    ghost var data := bb.bits;
    Terminate(bb, capacity);
    if |bb.bits| % 8 != 0 {
      return Failure(AssertionError);
    }
    Fill(bb, capacity, PadCount(|data|, capacity));
    PaddedIs(data, capacity);
    var codewords := PackBits(bb.bits);
    r := Success(Encoded(version, level, codewords));
  }

  ghost predicate IsSmallestVersion(segs: seq<Segment>, ecl: Ecc, minVersion: int, maxVersion: int, version: Version) {
    && minVersion <= version <= maxVersion
    && Fits(segs, version, ecl)
    && forall v: Version | minVersion <= v < version :: !Fits(segs, v, ecl)
  }

  /** The codewords are the padded stream of the segments, as many as the version and level hold. */
  ghost predicate HoldsSegments(e: Encoded, segs: seq<Segment>) {
    && Fits(segs, e.version, e.ecl)
    && CapacityBits(e.version, e.ecl) >= 0
    && CapacityBits(e.version, e.ecl) % 8 == 0
    && |e.codewords| == NumDataCodewords(e.version, e.ecl)
    && BytesToBits(e.codewords) == Padded(StreamBits(segs, e.version), CapacityBits(e.version, e.ecl))
  }

  lemma FitsMeans(segs: seq<Segment>, ver: Version, ecl: Ecc)
    ensures Fits(segs, ver, ecl) <==> CountsFit(segs, ver) && TotalLength(segs, ver) <= CapacityBits(ver, ecl)
  {}

  lemma LevelHolds(used: int, ver: Version, ecl: Ecc, boostEcl: bool, level: Ecc)
    requires used <= CapacityBits(ver, ecl)
    requires if boostEcl then IsBestLevel(used, ver, ecl, level) else level == ecl
    ensures used <= CapacityBits(ver, level)
  {
    hide CapacityBits;
  }

  lemma CapacityIs(ver: Version, ecl: Ecc)
    ensures CapacityBits(ver, ecl) == NumDataCodewords(ver, ecl) * 8
  {}

  lemma PaddedIs(bits: seq<bool>, capacity: nat)
    requires |bits| <= capacity && capacity % 8 == 0
    ensures Padded(bits, capacity) == bits + Zeros(FillLength(|bits|, capacity)) + PadBits(PadCount(|bits|, capacity))
  {}

  /** A reader of the data codewords gets back the segments they were made from. */
  lemma ReadBack(e: Encoded, segs: seq<Segment>)
    requires HoldsSegments(e, segs)
    requires forall i | 0 <= i < |segs| :: WellFormed(segs[i])
    ensures Parse(BytesToBits(e.codewords), e.version) == Some(segs)
  {
    hide Parse, Padded, StreamBits, BytesToBits, TotalLength, CountsFit;
    ParsePadded(segs, e.version, CapacityBits(e.version, e.ecl));
  }
}
