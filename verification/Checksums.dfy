/** The Internet checksum of section 2 of RFC 1071, in the two word orders the network stack uses. */
module Checksums {
  import opened Machine

  const U32: nat := 0x1_0000_0000

  /** Sum of 16-bit words, high byte first; an odd last byte is the high half of a word. */
  function SumBE(s: seq<u8>): nat {
    if |s| == 0 then 0 else if |s| == 1 then s[0] * 256 else s[0] * 256 + s[1] + SumBE(s[2..])
  }

  /** Sum of 16-bit words as a little-endian machine reads them. */
  function SumLE(s: seq<u8>): nat {
    if |s| == 0 then 0 else if |s| == 1 then s[0] else s[0] + s[1] * 256 + SumLE(s[2..])
  }

  /** Adding the carries back in until none is left. */
  function Fold(sum: nat): u16
    decreases sum
  {
    if sum < 0x1_0000 then sum else Fold(sum % 0x1_0000 + sum / 0x1_0000)
  }

  function Swap(x: u16): u16 { x % 256 * 256 + x / 256 }

  function NetSum(s: seq<u8>): u16 { 0xFFFF - Fold(SumBE(s)) }

  /** Residue mod 65535, with 65535 rather than 0 for the multiples that are not 0. */
  function Canon(sum: nat): u16 { if sum == 0 then 0 else (sum - 1) % 0xFFFF + 1 }

  /** Folding computes the one's-complement residue. */
  lemma {:induction false} FoldCanon(sum: nat)
    ensures Fold(sum) == Canon(sum)
    decreases sum
  {
    if sum >= 0x1_0000 {
      FoldCanon(sum % 0x1_0000 + sum / 0x1_0000);
    }
  }

  lemma CanonUnique(a: nat, b: u16)
    requires (a == 0 <==> b == 0) && a % 0xFFFF == b % 0xFFFF
    ensures Canon(a) == b
  {
  }

  /** Reading the other byte order multiplies by 256 modulo 65535. */
  lemma {:induction false} OrdersAgree(s: seq<u8>)
    ensures SumLE(s) % 0xFFFF == 256 * SumBE(s) % 0xFFFF && (SumLE(s) == 0 <==> SumBE(s) == 0)
  {
    if |s| >= 2 {
      OrdersAgree(s[2..]);
      WordStep(s[0], s[1], SumLE(s[2..]), SumBE(s[2..]));
    } else if |s| == 1 {
      ByteStep(s[0]);
    }
  }

  lemma ByteStep(a: u8)
    ensures a % 0xFFFF == 256 * (a * 256) % 0xFFFF
  {
    assert 256 * (a * 256) == a * 0xFFFF + a;
  }

  lemma AddMultiple(x: int, k: int)
    ensures (x + k * 0xFFFF) % 0xFFFF == x % 0xFFFF
  {
    var q, r := x / 0xFFFF, x % 0xFFFF;
    assert x + k * 0xFFFF == (q + k) * 0xFFFF + r;
  }

  lemma Apart(a: int, b: int)
    requires a % 0xFFFF == b % 0xFFFF
    ensures a == b + (a / 0xFFFF - b / 0xFFFF) * 0xFFFF
  {
  }

  lemma WordStep(a: u8, b: u8, le: nat, be: nat)
    requires le % 0xFFFF == 256 * be % 0xFFFF
    ensures (a + b * 256 + le) % 0xFFFF == 256 * (a * 256 + b + be) % 0xFFFF
  {
    var k, x := le / 0xFFFF - 256 * be / 0xFFFF, a + b * 256 + 256 * be;
    Apart(le, 256 * be);
    assert a + b * 256 + le == x + k * 0xFFFF && 256 * (a * 256 + b + be) == x + a * 0xFFFF;
    AddMultiple(x, k);
    AddMultiple(x, a);
  }

  lemma SwapBytes(h: u8, l: u8)
    ensures h * 256 + l < 0x1_0000 && Swap(h * 256 + l) == l * 256 + h
  {
    assert (h * 256 + l) / 256 == h && (h * 256 + l) % 256 == l;
  }

  lemma SwapResidue(x: u16)
    ensures Swap(x) % 0xFFFF == 256 * x % 0xFFFF && (Swap(x) == 0 <==> x == 0) && Swap(0xFFFF - x) == 0xFFFF - Swap(x)
  {
    hide Swap;
    var h: u8, l: u8 := x / 256, x % 256;
    SwapBytes(h, l);
    SwapBytes(255 - h, 255 - l);
    assert x == h * 256 + l && 0xFFFF - x == (255 - h) * 256 + (255 - l);
    assert 256 * x == l * 256 + h + h * 0xFFFF;
    AddMultiple(l * 256 + h, h);
  }

  lemma CanonResidue(sum: nat)
    ensures Canon(sum) % 0xFFFF == sum % 0xFFFF && (Canon(sum) == 0 <==> sum == 0)
  {
  }

  /** The two implementations agree up to a byte swap. */
  lemma SumsSwap(s: seq<u8>)
    ensures Fold(SumLE(s)) == Swap(Fold(SumBE(s)))
  {
    var le, be := SumLE(s), SumBE(s);
    FoldCanon(le);
    FoldCanon(be);
    OrdersAgree(s);
    CanonResidue(be);
    SwapResidue(Canon(be));
    Times256(Canon(be), be);
    CanonUnique(le, Swap(Canon(be)));
  }

  lemma Times256(a: nat, b: nat)
    requires a % 0xFFFF == b % 0xFFFF
    ensures 256 * a % 0xFFFF == 256 * b % 0xFFFF
  {
    var k := a / 0xFFFF - b / 0xFFFF;
    Apart(a, b);
    assert 256 * a == 256 * b + 256 * k * 0xFFFF;
    AddMultiple(256 * b, 256 * k);
  }

  // ----- adding up -----

  lemma {:induction false} SumBound(s: seq<u8>)
    ensures SumBE(s) <= (|s| + 1) / 2 * 0xFFFF && SumLE(s) <= (|s| + 1) / 2 * 0xFFFF
  {
    if |s| >= 2 { SumBound(s[2..]); }
  }

  /** Words add up across a boundary at an even offset. */
  lemma {:induction false} SumConcat(s: seq<u8>, t: seq<u8>)
    requires |s| % 2 == 0
    ensures SumBE(s + t) == SumBE(s) + SumBE(t) && SumLE(s + t) == SumLE(s) + SumLE(t)
  {
    if s == [] {
      assert s + t == t;
    } else {
      SumConcat(s[2..], t);
      assert (s + t)[2..] == s[2..] + t;
    }
  }

  /** What a 16-bit field at an even offset contributes. */
  lemma StoreSum(s: seq<u8>, k: nat, c: u16)
    requires k % 2 == 0 && k + 1 < |s| && s[k] == s[k + 1] == 0
    ensures SumBE(s[k := c / 256][k + 1 := c % 256]) == SumBE(s) + c
    ensures SumLE(s[k := c % 256][k + 1 := c / 256]) == SumLE(s) + c
  {
    var be, le := s[k := c / 256][k + 1 := c % 256], s[k := c % 256][k + 1 := c / 256];
    assert s == s[..k] + s[k..] && be == s[..k] + be[k..] && le == s[..k] + le[k..];
    SumConcat(s[..k], s[k..]);
    SumConcat(s[..k], be[k..]);
    SumConcat(s[..k], le[k..]);
    assert s[k..][2..] == be[k..][2..] == le[k..][2..];
  }

  /** A sum completed with the complement of its fold folds to all ones. */
  lemma Completes(sum: nat)
    ensures 0xFFFF - Fold(sum + (0xFFFF - Fold(sum))) == 0
  {
    FoldCanon(sum);
    FoldCanon(sum + (0xFFFF - Fold(sum)));
    CanonResidue(sum);
    assert sum == Canon(sum) + (sum / 0xFFFF - Canon(sum) / 0xFFFF) * 0xFFFF by { Apart(sum, Canon(sum)); }
    AddMultiple(0xFFFF, sum / 0xFFFF - Canon(sum) / 0xFFFF);
    CanonUnique(sum + (0xFFFF - Canon(sum)), 0xFFFF);
  }

  /** The example of section 3 of RFC 1071: eight bytes, byte by byte. */
  lemma Rfc1071Example()
    ensures var s: seq<u8> := [0x00, 0x01, 0xF2, 0x03, 0xF4, 0xF5, 0xF6, 0xF7];
      SumBE(s) == 0x2_DDF0 && Fold(SumBE(s)) == 0xDDF2 && NetSum(s) == 0x220D
  {
    var s: seq<u8> := [0x00, 0x01, 0xF2, 0x03, 0xF4, 0xF5, 0xF6, 0xF7];
    assert s[2..] == [0xF2, 0x03, 0xF4, 0xF5, 0xF6, 0xF7] && s[2..][2..] == [0xF4, 0xF5, 0xF6, 0xF7];
    assert s[2..][2..][2..] == [0xF6, 0xF7] && s[2..][2..][2..][2..] == [];
    assert SumBE(s[2..][2..][2..]) == 0xF6F7 && SumBE(s[2..][2..]) == 0xF4F5 + 0xF6F7;
    assert SumBE(s[2..]) == 0xF203 + 0xF4F5 + 0xF6F7;
    assert Fold(0x2_DDF0) == Fold(0xDDF2);
  }

  // ----- the code -----

  method FoldCarries(sum0: u32) returns (sum: u16)
    ensures sum == Fold(sum0)
  {
    var x := sum0;
    while x / 0x1_0000 != 0
      invariant 0 <= x < U32 && Fold(x) == Fold(sum0)
      decreases x
    {
      x := x % 0x1_0000 + x / 0x1_0000;
    }
    sum := x;
  }

  function HighLow(hi: u8, lo: u8): u16 { hi * 256 + lo }

  /** Equal as 32-bit words. */
  ghost predicate Same32(a: int, b: int) { a % U32 == b % U32 }

  /** The accumulator's addition. */
  function Add32(a: u32, w: u16): (r: u32) { (a + w) % U32 }

  lemma Accumulate(a: u32, w: u16, rest: nat, total: nat)
    requires Same32(a + (w + rest), total)
    ensures Same32(Add32(a, w) + rest, total)
  {
    var q, y := (a + w) / U32, (a + w) % U32 + rest;
    assert a + (w + rest) == q * U32 + y;
    assert (q * U32 + y) % U32 == y % U32;
  }

  lemma Accumulated(a: u32, total: nat)
    requires Same32(a, total)
    ensures a == total % U32
  {
  }

  lemma StepBE(data: seq<u8>, i: nat)
    requires i < |data|
    ensures i + 1 < |data| ==> SumBE(data[i..]) == HighLow(data[i], data[i + 1]) + SumBE(data[i + 2..])
    ensures i + 1 == |data| ==> SumBE(data[i..]) == HighLow(data[i], 0)
  {
    assert i + 1 < |data| ==> data[i..][2..] == data[i + 2..];
  }

  lemma StepLE(data: seq<u8>, i: nat)
    requires i < |data|
    ensures i + 1 < |data| ==> SumLE(data[i..]) == HighLow(data[i + 1], data[i]) + SumLE(data[i + 2..])
    ensures i + 1 == |data| ==> SumLE(data[i..]) == HighLow(0, data[i])
  {
    assert i + 1 < |data| ==> data[i..][2..] == data[i + 2..];
  }

  /** `net_checksum`, with its 32-bit accumulator. */
  method NetChecksum(data: seq<u8>) returns (c: u16)
    requires |data| < U32
    ensures c == 0xFFFF - Fold(SumBE(data) % U32)
    ensures |data| <= 0x2_0000 ==> c == NetSum(data)
  {
    hide SumBE, Same32, Add32, HighLow, Fold;
    var sum: u32, i := 0, 0;
    assert data[0..] == data;
    assert Same32(0 + SumBE(data[0..]), SumBE(data)) by { SameSelf(SumBE(data)); }
    while |data| - i > 1
      invariant 0 <= i <= |data| && Same32(sum + SumBE(data[i..]), SumBE(data))
    {
      StepBE(data, i);
      Accumulate(sum, HighLow(data[i], data[i + 1]), SumBE(data[i + 2..]), SumBE(data));
      sum := Add32(sum, HighLow(data[i], data[i + 1]));
      i := i + 2;
    }
    if |data| - i == 1 {
      StepBE(data, i);
      Accumulate(sum, HighLow(data[i], 0), 0, SumBE(data));
      sum := Add32(sum, HighLow(data[i], 0));
    } else {
      SumNone(data, i);
    }
    Accumulated(sum, SumBE(data));
    if |data| <= 0x2_0000 { SumFits(data); }
    var folded := FoldCarries(sum);
    c := 0xFFFF - folded;
  }

  lemma SameSelf(x: int)
    ensures Same32(0 + x, x)
  {
  }

  lemma SumNone(data: seq<u8>, i: nat)
    requires i == |data|
    ensures SumBE(data[i..]) == 0 && SumLE(data[i..]) == 0
  {
  }

  lemma SumFits(data: seq<u8>)
    requires |data| <= 0x2_0000
    ensures SumBE(data) % U32 == SumBE(data) && SumLE(data) % U32 == SumLE(data)
  {
    SumBound(data);
  }

  /** The word loop of `tcp_checksum`, from a given accumulator. */
  method AddWords(sum0: u32, data: seq<u8>) returns (sum: u32)
    ensures sum == (sum0 + SumLE(data)) % U32
  {
    hide SumLE, Same32, Add32, HighLow;
    sum := sum0;
    var i := 0;
    assert data[0..] == data;
    assert Same32(sum0 + SumLE(data[0..]), sum0 + SumLE(data)) by { SameSelf(sum0 + SumLE(data)); }
    while i + 1 < |data|
      invariant 0 <= i <= |data| && i % 2 == 0 && Same32(sum + SumLE(data[i..]), sum0 + SumLE(data))
    {
      StepLE(data, i);
      Accumulate(sum, HighLow(data[i + 1], data[i]), SumLE(data[i + 2..]), sum0 + SumLE(data));
      sum := Add32(sum, HighLow(data[i + 1], data[i]));
      i := i + 2;
    }
    if |data| % 2 == 1 {
      StepLE(data, i);
      Accumulate(sum, HighLow(0, data[|data| - 1]), 0, sum0 + SumLE(data));
      sum := Add32(sum, HighLow(0, data[|data| - 1]));
    } else {
      SumNone(data, i);
    }
    Accumulated(sum, sum0 + SumLE(data));
  }
}
