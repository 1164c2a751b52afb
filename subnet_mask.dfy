/** `subnet_mask_valid`: a four-octet subnet mask is valid when its 32 bits,
    octet 0 first and each octet's most significant bit first, are a run of
    ones followed only by zeros -- the prefix shape of a CIDR mask
    (section 3.1 of RFC 4632). */
module SubnetMask {

  /** The single-bit mask selecting bit `j` of an octet, counted from the
      most significant bit: `0x80 >> j`. */
  function BitSelect(j: nat): (sel: bv8)
    requires j < 8
  {
    if j == 0 then 0x80 else if j == 1 then 0x40 else if j == 2 then 0x20
    else if j == 3 then 0x10 else if j == 4 then 0x08 else if j == 5 then 0x04
    else if j == 6 then 0x02 else 0x01
  }

  /** Bit `j` of an octet, counted from its most significant bit. */
  predicate OctetBit(x: bv8, j: nat)
    requires j < 8
  {
    x & BitSelect(j) != 0
  }

  /** Bit `k` of the mask in transmission order: octet `k / 8`, counted from
      its most significant bit. */
  predicate Bit(mask: seq<bv8>, k: nat)
    requires |mask| == 4 && k < 32
  {
    OctetBit(mask[k / 8], k % 8)
  }

  /** No 1 bit comes after a 0 bit. */
  predicate Contiguous(mask: seq<bv8>)
    requires |mask| == 4
  {
    forall a: nat, b: nat :: a < b < 32 && !Bit(mask, a) ==> !Bit(mask, b)
  }

  /** An octet whose `m` leading bits are one and the rest zero. */
  function PrefixOctet(m: int): bv8 {
    if m <= 0 then 0x00 else if m == 1 then 0x80 else if m == 2 then 0xC0
    else if m == 3 then 0xE0 else if m == 4 then 0xF0 else if m == 5 then 0xF8
    else if m == 6 then 0xFC else if m == 7 then 0xFE else 0xFF
  }

  /** The mask of prefix length `k`: `k` ones followed by `32 - k` zeros. */
  function PrefixMask(k: nat): (mask: seq<bv8>)
    requires k <= 32
    ensures |mask| == 4
  {
    [PrefixOctet(k), PrefixOctet(k - 8), PrefixOctet(k - 16), PrefixOctet(k - 24)]
  }

  // ---------------------------------------------------------------------
  // The firmware's loop.

  /** `subnet_mask_valid`: nested loops over the octets and their bits with
      a `found_zero` flag, returning false at the first 1 after a 0. */
  method SubnetMaskValid(subnetMask: array<bv8>) returns (valid: bool)
    requires subnetMask.Length >= 4
    ensures valid == Contiguous(subnetMask[..4])
  {
    ghost var m := subnetMask[..4];
    var foundZero := false;
    var i := 0;
    while i < 4
      invariant 0 <= i <= 4
      invariant ScanOctets(m, i) == Scanning(foundZero)
    {
      var testMask: bv8 := 0x80;
      var j := 0;
      while j < 8
        invariant 0 <= j <= 8
        invariant j < 8 ==> testMask == BitSelect(j)
        invariant ScanOctet(m, i, j) == Scanning(foundZero)
      {
        assert subnetMask[i] == m[i];
        ScanOctetStep(m, i, j, foundZero);
        ShiftSelectsNextBit(j);
        if subnetMask[i] & testMask == 0 {
          if !foundZero {
            foundZero := true;
          }
          testMask := testMask >> 1;
        } else {
          if foundZero {
            RejectedIsNotContiguous(m, i, j + 1);
            return false;
          }
          testMask := testMask >> 1;
        }
        j := j + 1;
      }
      i := i + 1;
    }
    ScanningIsContiguous(m);
    return true;
  }

  /** Bit `8 * i + j` of the mask is bit `j` of octet `i`. */
  lemma BitAt(m: seq<bv8>, i: nat, j: nat)
    requires |m| == 4 && i < 4 && j < 8
    ensures Bit(m, 8 * i + j) == OctetBit(m[i], j)
  {
    assert (8 * i + j) / 8 == i && (8 * i + j) % 8 == j;
  }

  /** Where the scan stands: still going, with the `found_zero` flag, or
      stopped at a 1 that follows a 0. */
  datatype ScanState = Rejected | Scanning(foundZero: bool)

  /** The scan moving over one bit. */
  function StepBit(st: ScanState, bit: bool): ScanState {
    match st
    case Rejected => Rejected
    case Scanning(z) =>
      if !bit then Scanning(true) else if z then Rejected else Scanning(false)
  }

  /** The scan after the first `i` octets, as the loops go. */
  function ScanOctets(m: seq<bv8>, i: nat): ScanState
    requires |m| == 4 && i <= 4
    decreases i, 0
  {
    if i == 0 then Scanning(false) else ScanOctet(m, i - 1, 8)
  }

  /** The scan after the first `i` octets and `j` bits of octet `i`. */
  function ScanOctet(m: seq<bv8>, i: nat, j: nat): ScanState
    requires |m| == 4 && i < 4 && j <= 8
    decreases i, j + 1
  {
    if j == 0 then ScanOctets(m, i)
    else StepBit(ScanOctet(m, i, j - 1), OctetBit(m[i], j - 1))
  }

  /** The scan after the first `p` bits in transmission order. */
  function ScanBits(m: seq<bv8>, p: nat): ScanState
    requires |m| == 4 && p <= 32
  {
    if p == 0 then Scanning(false) else StepBit(ScanBits(m, p - 1), Bit(m, p - 1))
  }

  /** The scan over bit `j` of octet `i`, tested with `BitSelect(j)`. */
  lemma ScanOctetStep(m: seq<bv8>, i: nat, j: nat, z: bool)
    requires |m| == 4 && i < 4 && j < 8 && ScanOctet(m, i, j) == Scanning(z)
    ensures ScanOctet(m, i, j + 1) == StepBit(Scanning(z), m[i] & BitSelect(j) != 0)
  {
  }

  /** Counting octets and bits is counting bits. */
  lemma {:induction false} ScanOctetsIsScanBits(m: seq<bv8>, i: nat)
    requires |m| == 4 && i <= 4
    ensures ScanOctets(m, i) == ScanBits(m, 8 * i)
    decreases i, 0
  {
    if i > 0 {
      ScanOctetIsScanBits(m, i - 1, 8);
    }
  }

  lemma {:induction false} ScanOctetIsScanBits(m: seq<bv8>, i: nat, j: nat)
    requires |m| == 4 && i < 4 && j <= 8
    ensures ScanOctet(m, i, j) == ScanBits(m, 8 * i + j)
    decreases i, j + 1
  {
    if j == 0 {
      ScanOctetsIsScanBits(m, i);
    } else {
      var p := 8 * i + (j - 1);
      ScanOctetIsScanBits(m, i, j - 1);
      BitAt(m, i, j - 1);
      assert p + 1 == 8 * i + j;
      assert ScanBits(m, p + 1) == StepBit(ScanBits(m, p), Bit(m, p));
    }
  }

  predicate AllOnesBefore(mask: seq<bv8>, p: nat)
    requires |mask| == 4 && p <= 32
  {
    forall a: nat :: a < p ==> Bit(mask, a)
  }

  predicate NoOneAfterZero(mask: seq<bv8>, p: nat)
    requires |mask| == 4 && p <= 32
  {
    forall a: nat, b: nat :: a < b < p && !Bit(mask, a) ==> !Bit(mask, b)
  }

  /** After `p` bits the scan has stopped iff a 1 followed a 0 among them;
      otherwise its flag says whether a 0 was among them. */
  lemma {:induction false} ScanBitsMeaning(m: seq<bv8>, p: nat)
    requires |m| == 4 && p <= 32
    ensures ScanBits(m, p) == (if NoOneAfterZero(m, p) then Scanning(!AllOnesBefore(m, p))
                               else Rejected)
    decreases p
  {
    if p > 0 {
      var q := p - 1;
      ScanBitsMeaning(m, q);
      if !NoOneAfterZero(m, q) {
        GapPersists(m, q);
      } else if !Bit(m, q) {
        ZeroBitStep(m, q);
      } else if AllOnesBefore(m, q) {
        OneBitStep(m, q);
      } else {
        OneAfterZero(m, q);
      }
    }
  }

  /** A scan that stopped has seen a mask that is not contiguous. */
  lemma RejectedIsNotContiguous(m: seq<bv8>, i: nat, j: nat)
    requires |m| == 4 && i < 4 && j <= 8 && ScanOctet(m, i, j) == Rejected
    ensures !Contiguous(m)
  {
    ScanOctetIsScanBits(m, i, j);
    ScanBitsMeaning(m, 8 * i + j);
  }

  /** A scan still going after all four octets has seen a contiguous mask. */
  lemma ScanningIsContiguous(m: seq<bv8>)
    requires |m| == 4 && ScanOctets(m, 4).Scanning?
    ensures Contiguous(m)
  {
    ScanOctetsIsScanBits(m, 4);
    ScanBitsMeaning(m, 32);
  }

  lemma GapPersists(m: seq<bv8>, pos: nat)
    requires |m| == 4 && pos < 32 && !NoOneAfterZero(m, pos)
    ensures !NoOneAfterZero(m, pos + 1)
  {
  }

  lemma ZeroBitStep(m: seq<bv8>, pos: nat)
    requires |m| == 4 && pos < 32
    requires NoOneAfterZero(m, pos) && !Bit(m, pos)
    ensures NoOneAfterZero(m, pos + 1) && !AllOnesBefore(m, pos + 1)
  {
  }

  lemma OneBitStep(m: seq<bv8>, pos: nat)
    requires |m| == 4 && pos < 32
    requires NoOneAfterZero(m, pos) && AllOnesBefore(m, pos) && Bit(m, pos)
    ensures NoOneAfterZero(m, pos + 1) && AllOnesBefore(m, pos + 1)
  {
  }

  lemma OneAfterZero(m: seq<bv8>, pos: nat)
    requires |m| == 4 && pos < 32
    requires !AllOnesBefore(m, pos) && Bit(m, pos)
    ensures !NoOneAfterZero(m, pos + 1)
  {
  }

  /** Shifting the selector right by one selects the next lower bit. */
  lemma ShiftSelectsNextBit(j: nat)
    requires j < 8
    ensures j < 7 ==> BitSelect(j) >> 1 == BitSelect(j + 1)
  {
  }

  // ---------------------------------------------------------------------
  // Valid masks are exactly the prefix masks /0 .. /32.

  /** Bit `j` (from the top) of `PrefixOctet(m)` is one iff `j < m`. */
  lemma PrefixOctetBit(m: int, j: nat)
    requires j < 8
    ensures OctetBit(PrefixOctet(m), j) == (j < m)
  {
    if m <= 0 {} else if m == 1 {} else if m == 2 {} else if m == 3 {}
    else if m == 4 {} else if m == 5 {} else if m == 6 {} else if m == 7 {} else {}
  }

  lemma PrefixMaskBits(k: nat, p: nat)
    requires k <= 32 && p < 32
    ensures Bit(PrefixMask(k), p) == (p < k)
  {
    var i, j := p / 8, p % 8;
    assert p == 8 * i + j && i < 4;
    PrefixMaskOctet(k, i);
    PrefixOctetBit(k - 8 * i, j);
  }

  /** Octet `i` of the mask of prefix length `k` has its `k - 8 * i` leading
      bits set. */
  lemma PrefixMaskOctet(k: nat, i: nat)
    requires k <= 32 && i < 4
    ensures PrefixMask(k)[i] == PrefixOctet(k - 8 * i)
  {
    if i == 0 {
      assert 8 * i == 0;
    } else if i == 1 {
      assert 8 * i == 8;
    } else if i == 2 {
      assert 8 * i == 16;
    } else {
      assert 8 * i == 24;
    }
  }

  /** Two octets with the same eight bits are equal. */
  lemma OctetFromBits(x: bv8, y: bv8)
    requires forall j: nat :: j < 8 ==> OctetBit(x, j) == OctetBit(y, j)
    ensures x == y
  {
    assert OctetBit(x, 0) == OctetBit(y, 0) && OctetBit(x, 1) == OctetBit(y, 1);
    assert OctetBit(x, 2) == OctetBit(y, 2) && OctetBit(x, 3) == OctetBit(y, 3);
    assert OctetBit(x, 4) == OctetBit(y, 4) && OctetBit(x, 5) == OctetBit(y, 5);
    assert OctetBit(x, 6) == OctetBit(y, 6) && OctetBit(x, 7) == OctetBit(y, 7);
  }

  /** Two masks with the same 32 bits are equal. */
  lemma MaskFromBits(x: seq<bv8>, y: seq<bv8>)
    requires |x| == 4 && |y| == 4
    requires forall p: nat :: p < 32 ==> Bit(x, p) == Bit(y, p)
    ensures x == y
  {
    forall i: nat | i < 4
      ensures x[i] == y[i]
    {
      forall j: nat | j < 8
        ensures OctetBit(x[i], j) == OctetBit(y[i], j)
      {
        var p := 8 * i + j;
        assert p / 8 == i && p % 8 == j;
        assert Bit(x, p) == Bit(y, p);
      }
      OctetFromBits(x[i], y[i]);
    }
  }

  /** The number of leading one bits. */
  function LeadingOnes(mask: seq<bv8>, p: nat): (k: nat)
    requires |mask| == 4 && p <= 32
    requires AllOnesBefore(mask, p)
    ensures p <= k <= 32
    ensures AllOnesBefore(mask, k)
    ensures k < 32 ==> !Bit(mask, k)
    decreases 32 - p
  {
    if p == 32 || !Bit(mask, p) then p else LeadingOnes(mask, p + 1)
  }

  /** A mask is valid iff it is `k` ones followed by `32 - k` zeros for some
      `k` in 0..32; so 0.0.0.0 and 255.255.255.255 are both valid. */
  lemma {:induction false} ContiguousIffPrefix(mask: seq<bv8>)
    requires |mask| == 4
    ensures Contiguous(mask) <==> exists k: nat :: k <= 32 && mask == PrefixMask(k)
  {
    if Contiguous(mask) {
      var k := LeadingOnes(mask, 0);
      forall p: nat | p < 32
        ensures Bit(mask, p) == Bit(PrefixMask(k), p)
      {
        PrefixMaskBits(k, p);
        if k <= p && k < 32 {
          assert !Bit(mask, k);
          if k < p {
            assert !Bit(mask, p);
          }
        }
      }
      MaskFromBits(mask, PrefixMask(k));
    }
    if exists k: nat :: k <= 32 && mask == PrefixMask(k) {
      var k: nat :| k <= 32 && mask == PrefixMask(k);
      forall a: nat, b: nat | a < b < 32 && !Bit(mask, a)
        ensures !Bit(mask, b)
      {
        PrefixMaskBits(k, a);
        PrefixMaskBits(k, b);
      }
    }
  }

  /** The examples of the function's documentation and the two extremes. */
  lemma Examples()
    ensures Contiguous([255, 255, 255, 0])
    ensures !Contiguous([255, 254, 255, 0])
    ensures Contiguous([0, 0, 0, 0])
    ensures Contiguous([255, 255, 255, 255])
  {
    ContiguousIffPrefix([255, 255, 255, 0]);
    assert [255, 255, 255, 0] == PrefixMask(24);
    ContiguousIffPrefix([0, 0, 0, 0]);
    assert [0, 0, 0, 0] == PrefixMask(0);
    ContiguousIffPrefix([255, 255, 255, 255]);
    assert [255, 255, 255, 255] == PrefixMask(32);
    var bad: seq<bv8> := [255, 254, 255, 0];
    assert !Bit(bad, 15) && Bit(bad, 16);
  }
}
