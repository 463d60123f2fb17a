/** Numbers as bits, most significant first, and the appendable bit buffer. */
module BitStrings {
  import opened BinaryNumbers

  const UINT32_LIMIT := 0x1_0000_0000

  /** The `len` low bits of `val`. */
  function ToBits(val: nat, len: nat): (bits: seq<bool>)
    ensures |bits| == len
    decreases len
  {
    if len == 0 then [] else ToBits(val / 2, len - 1) + [val % 2 == 1]
  }

  function FromBits(bits: seq<bool>): nat {
    if |bits| == 0 then 0
    else 2 * FromBits(bits[..|bits| - 1]) + (if bits[|bits| - 1] then 1 else 0)
  }

  lemma {:induction false} FromToBits(val: nat, len: nat)
    requires val < Pow2(len)
    ensures FromBits(ToBits(val, len)) == val
    decreases len
  {
    if len > 0 {
      FromToBits(val / 2, len - 1);
      assert ToBits(val, len)[..len - 1] == ToBits(val / 2, len - 1);
    }
  }

  lemma {:induction false} ToFromBits(bits: seq<bool>)
    ensures ToBits(FromBits(bits), |bits|) == bits
  {
    if |bits| > 0 {
      var n := |bits| - 1;
      ToFromBits(bits[..n]);
      assert bits == bits[..n] + [bits[n]];
    }
  }

  lemma {:induction false} FromBitsBound(bits: seq<bool>)
    ensures FromBits(bits) < Pow2(|bits|)
  {
    if |bits| > 0 {
      FromBitsBound(bits[..|bits| - 1]);
    }
  }

  /** Each bit is the one the shift brings to the lowest place. */
  lemma {:induction false} ToBitsAt(val: nat, len: nat, k: nat)
    requires k < len
    ensures ToBits(val, len)[k] == (ShiftRight(val, len - 1 - k) % 2 == 1)
    decreases len
  {
    if k < len - 1 {
      ToBitsAt(val / 2, len - 1, k);
      ShiftRightHalf(val, len - 2 - k);
    }
  }

  class BitBuffer {
    var bits: seq<bool>

    constructor ()
      ensures bits == []
    {
      bits := [];
    }

    /** Fails, appending nothing, exactly when `val` does not fit `len` bits or `len` is not in 0..31. */
    method AppendBits(val: nat, len: int) returns (ok: bool)
      requires val < UINT32_LIMIT
      modifies this
      ensures ok <==> 0 <= len <= 31 && val < Pow2(len)
      ensures bits == if ok then old(bits) + ToBits(val, len) else old(bits)
    {
      if len < 0 || len > 31 {
        return false;
      }
      ShiftRightIsZero(val, len);
      if ShiftRight(val, len) != 0 {
        return false;
      }
      ghost var all := ToBits(val, len);
      for i := len downto 0
        invariant bits == old(bits) + all[..len - i]
      {
        bits := bits + [ShiftRight(val, i) % 2 == 1];
        ToBitsAt(val, len, len - 1 - i);
        assert all[..len - i] == all[..len - i - 1] + [all[len - i - 1]];
      }
      assert all[..len] == all;
      return true;
    }
  }
}
