/**
 Segments in a row: each is written as a mode indicator, a character count and its payload. `Parse` is
 a reader of that stream; it gets back exactly the segments that were written.
 */
module SegmentStream {
  import opened BinaryNumbers
  import opened BitStrings
  import opened DigitGroups
  import opened Options
  import opened Segments

  newtype Int32 = x: int | -0x8000_0000 <= x <= 0x7FFF_FFFF

  function HeaderLength(seg: Segment, ver: int): nat
    requires 1 <= ver <= 40
  {
    4 + seg.mode.CharCountBits(ver)
  }

  predicate CountFits(seg: Segment, ver: int)
    requires 1 <= ver <= 40
  {
    seg.numChars < Pow2(seg.mode.CharCountBits(ver))
  }

  ghost predicate CountsFit(segs: seq<Segment>, ver: int)
    requires 1 <= ver <= 40
  {
    forall i | 0 <= i < |segs| :: CountFits(segs[i], ver)
  }

  /** The mathematical sum of the lengths of the headers and payloads. */
  ghost function TotalLength(segs: seq<Segment>, ver: int): nat
    requires 1 <= ver <= 40
  {
    if |segs| == 0 then 0
    else var n := |segs| - 1;
         TotalLength(segs[..n], ver) + HeaderLength(segs[n], ver) + |segs[n].data|
  }

  lemma {:induction false} TotalLengthGrows(segs: seq<Segment>, ver: int, i: nat)
    requires 1 <= ver <= 40 && i <= |segs|
    ensures TotalLength(segs[..i], ver) <= TotalLength(segs, ver)
    decreases |segs| - i
  {
    if i < |segs| {
      TotalLengthGrows(segs, ver, i + 1);
      assert segs[..i + 1][..i] == segs[..i];
    } else {
      assert segs[..i] == segs;
    }
  }

  /**
   `getTotalBits`: minus one exactly when a count does not fit its field or the sum exceeds INT_MAX. No int
   overflows on the way.
   */
  method GetTotalBits(segs: seq<Segment>, ver: int) returns (result: Int32)
    requires 1 <= ver <= 40
    ensures CountsFit(segs, ver) && TotalLength(segs, ver) <= INT_MAX ==> result as int == TotalLength(segs, ver)
    ensures !(CountsFit(segs, ver) && TotalLength(segs, ver) <= INT_MAX) ==> result == -1
  {
    hide Pow2;
    result := 0;
    for i := 0 to |segs|
      invariant CountsFit(segs[..i], ver)
      invariant 0 <= result && result as int == TotalLength(segs[..i], ver)
    {
      var seg := segs[i];
      assert segs[..i + 1] == segs[..i] + [seg] && segs[..i + 1][..i] == segs[..i];
      TotalLengthGrows(segs, ver, i + 1);
      var ccbits := seg.mode.CharCountBits(ver) as Int32;
      if seg.numChars >= Pow2(ccbits as int) {
        return -1;
      }
      if 4 + ccbits > 0x7FFF_FFFF - result {
        return -1;
      }
      result := result + (4 + ccbits);
      if |seg.data| > (0x7FFF_FFFF - result) as int {
        return -1;
      }
      result := result + |seg.data| as Int32;
    }
    assert segs[..|segs|] == segs;
  }

  // Writing

  function SegmentBits(seg: Segment, ver: int): (bits: seq<bool>)
    requires 1 <= ver <= 40
    ensures |bits| == HeaderLength(seg, ver) + |seg.data|
  {
    ToBits(seg.mode.ModeBits(), 4) + ToBits(seg.numChars, seg.mode.CharCountBits(ver)) + seg.data
  }

  function StreamBits(segs: seq<Segment>, ver: int): (bits: seq<bool>)
    requires 1 <= ver <= 40
    ensures |bits| == TotalLength(segs, ver)
  {
    if |segs| == 0 then [] else StreamBits(segs[..|segs| - 1], ver) + SegmentBits(segs[|segs| - 1], ver)
  }

  lemma {:induction false} StreamCons(segs: seq<Segment>, ver: int)
    requires 1 <= ver <= 40 && |segs| > 0
    ensures StreamBits(segs, ver) == SegmentBits(segs[0], ver) + StreamBits(segs[1..], ver)
  {
    hide SegmentBits;
    var n := |segs| - 1;
    if n > 0 {
      StreamCons(segs[..n], ver);
      assert segs[..n][1..] == segs[1..][..n - 1];
    }
  }

  // Reading

  function ModeOf(indicator: nat): Option<Mode> {
    if indicator == 1 then Some(Numeric)
    else if indicator == 2 then Some(Alphanumeric)
    else if indicator == 4 then Some(Byte)
    else if indicator == 8 then Some(Kanji)
    else if indicator == 7 then Some(Eci)
    else None
  }

  /** The length of a payload of `n` characters; an ECI designator tells its own length. */
  function PayloadLength(mode: Mode, n: nat, payload: seq<bool>): Option<nat> {
    match mode
    case Kanji => Some(13 * n)
    case Eci =>
      if |payload| >= 1 && !payload[0] then Some(8)
      else if |payload| >= 2 && !payload[1] then Some(16)
      else if |payload| >= 3 && !payload[2] then Some(24)
      else None
    case _ => Some(BitLength(n, GroupingOf(mode)))
  }

  /** What the constructor's documentation asks of a segment: the count agrees with the mode and the payload. */
  predicate WellFormed(seg: Segment) {
    PayloadLength(seg.mode, seg.numChars, seg.data) == Some(|seg.data|)
  }

  /** Reads segments up to the terminator, four zero bits, or to the end of the stream. */
  function Parse(bits: seq<bool>, ver: int): Option<seq<Segment>>
    requires 1 <= ver <= 40
    decreases |bits|
  {
    if |bits| < 4 || FromBits(bits[..4]) == 0 then Some([])
    else match ModeOf(FromBits(bits[..4])) {
      case None => None
      case Some(mode) =>
        var h := 4 + mode.CharCountBits(ver);
        if |bits| < h then None
        else
          var n := FromBits(bits[4..h]);
          match PayloadLength(mode, n, bits[h..]) {
            case None => None
            case Some(len) =>
              if |bits| < h + len then None
              else match Parse(bits[h + len..], ver) {
                case None => None
                case Some(segs) => Some([Segment(mode, n, bits[h..h + len])] + segs)
              }
          }
    }
  }

  predicate IsTerminator(tail: seq<bool>) {
    |tail| < 4 || tail[..4] == [false, false, false, false]
  }

  lemma ModeRoundTrip(mode: Mode)
    ensures ModeOf(mode.ModeBits()) == Some(mode) && 0 < mode.ModeBits() < Pow2(4)
  {
    assert Pow2(4) == 16;
  }

  /** A payload tells its length whatever follows it. */
  lemma PayloadLengthAppend(seg: Segment, tail: seq<bool>)
    requires WellFormed(seg)
    ensures PayloadLength(seg.mode, seg.numChars, seg.data + tail) == Some(|seg.data|)
  {}

  lemma ParseOne(seg: Segment, rest: seq<bool>, ver: int)
    requires 1 <= ver <= 40 && WellFormed(seg) && CountFits(seg, ver)
    ensures Parse(SegmentBits(seg, ver) + rest, ver) == match Parse(rest, ver) {
              case None => None
              case Some(segs) => Some([seg] + segs)
            }
  {
    hide PayloadLength, FromBits, ToBits, ModeOf, Pow2;
    var c := seg.mode.CharCountBits(ver);
    var m, n := ToBits(seg.mode.ModeBits(), 4), ToBits(seg.numChars, c);
    var bits, h := SegmentBits(seg, ver) + rest, 4 + c;
    assert bits[..4] == m && bits[4..h] == n && bits[h..] == seg.data + rest;
    ModeRoundTrip(seg.mode);
    FromToBits(seg.mode.ModeBits(), 4);
    FromToBits(seg.numChars, c);
    PayloadLengthAppend(seg, rest);
    var len := |seg.data|;
    assert bits[h..h + len] == seg.data && bits[h + len..] == rest;
  }

  lemma ParseTerminator(tail: seq<bool>, ver: int)
    requires 1 <= ver <= 40 && IsTerminator(tail)
    ensures Parse(tail, ver) == Some([])
  {
    if |tail| >= 4 {
      ZeroBits(tail[..4]);
    }
  }

  lemma {:induction false} ZeroBits(bits: seq<bool>)
    requires forall i | 0 <= i < |bits| :: !bits[i]
    ensures FromBits(bits) == 0
  {
    if |bits| > 0 {
      ZeroBits(bits[..|bits| - 1]);
    }
  }

  /** The reader recovers every well-formed list of segments whose counts fit. */
  lemma {:induction false} ParseStream(segs: seq<Segment>, tail: seq<bool>, ver: int)
    requires 1 <= ver <= 40 && CountsFit(segs, ver) && IsTerminator(tail)
    requires forall i | 0 <= i < |segs| :: WellFormed(segs[i])
    ensures Parse(StreamBits(segs, ver) + tail, ver) == Some(segs)
  {
    hide Parse, SegmentBits, WellFormed, CountFits, IsTerminator;
    if |segs| == 0 {
      assert StreamBits(segs, ver) + tail == tail;
      ParseTerminator(tail, ver);
    } else {
      var rest := StreamBits(segs[1..], ver) + tail;
      ParseStream(segs[1..], tail, ver);
      StreamCons(segs, ver);
      assert StreamBits(segs, ver) + tail == SegmentBits(segs[0], ver) + rest;
      ParseOne(segs[0], rest, ver);
      assert segs == [segs[0]] + segs[1..];
    }
  }

  // What the factories make is well formed

  lemma TextSegmentWellFormed(seg: Segment)
    requires IsTextSegment(seg)
    ensures WellFormed(seg)
  {}

  /** The assignment value an ECI designator stands for. */
  function EciValue(payload: seq<bool>): nat
    requires |payload| in {8, 16, 24}
  {
    FromBits(payload[|payload| / 8..])
  }

  lemma EciPrefixes()
    ensures ToBits(2, 2) == [true, false] && ToBits(6, 3) == [true, true, false]
  {
    assert ToBits(1, 1) == [true];
    assert ToBits(3, 2) == ToBits(1, 1) + [true];
  }

  lemma EciRoundTrip(assignVal: nat)
    requires assignVal < 1000000
    ensures WellFormed(Segment(Eci, 0, EciBits(assignVal))) && EciValue(EciBits(assignVal)) == assignVal
  {
    hide Pow2, ToBits, FromBits;
    EciFields();
    EciPrefixes();
    var bits := EciBits(assignVal);
    if assignVal < 128 {
      DropZeroBit(assignVal, 7);
      FromToBits(assignVal, 7);
    } else if assignVal < 16384 {
      FromToBits(assignVal, 14);
      assert bits[2..] == ToBits(assignVal, 14);
    } else {
      FromToBits(assignVal, 21);
      assert bits[3..] == ToBits(assignVal, 21);
    }
  }

  lemma {:induction false} DropZeroBit(val: nat, len: nat)
    requires val < Pow2(len)
    ensures ToBits(val, len + 1) == [false] + ToBits(val, len)
    decreases len
  {
    if len > 0 {
      DropZeroBit(val / 2, len - 1);
    }
  }
}
