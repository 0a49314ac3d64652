/** Base 128 varints as the generated protobuf code writes, measures and reads them. */
module Varint {

  const TWO64: nat := 0x1_0000_0000_0000_0000

  type Byte = x: int | 0 <= x < 256
  type Uint64 = x: int | 0 <= x < 0x1_0000_0000_0000_0000

  /** Truncation to 64 bits: x modulo 2^64. */
  function Low64(x: nat): Uint64 {
    if x < TWO64 then x else Low64(x - TWO64)
  }

  lemma {:induction false} Low64Multiple(low: nat, turns: nat)
    ensures Low64(low + turns * TWO64) == Low64(low)
  {
    if turns > 0 { Low64Multiple(low, turns - 1); }
  }

  lemma {:induction false} Low64IsModulo(x: nat)
    ensures Low64(x) == x % TWO64
  {
    if x >= TWO64 { Low64IsModulo(x - TWO64); }
  }

  function Pow128(k: nat): (r: nat)
    ensures r >= 1
  {
    if k == 0 then 1 else 128 * Pow128(k - 1)
  }

  // ------------------------------------------------------------------ size

  /** Number of significant bits, the meaning of math/bits.Len64. */
  function BitLen(x: nat): nat {
    if x == 0 then 0 else 1 + BitLen(x / 2)
  }

  /** Setting the lowest bit: the Go expression x | 1. */
  function WithLowBit(x: nat): nat {
    if x % 2 == 0 then x + 1 else x
  }

  /** sovGenerated: the number of bytes the varint of x takes. */
  function Sov(x: Uint64): nat {
    (BitLen(WithLowBit(x)) + 6) / 7
  }

  lemma BitLenHalves(x: nat)
    requires x >= 8
    ensures BitLen(x) == 3 + BitLen(x / 8)
  {
    assert x / 2 / 2 == x / 4 && x / 4 / 2 == x / 8;
    assert BitLen(x / 2) == 1 + BitLen(x / 4);
  }

  lemma {:induction false} BitLenBound(x: nat, n: nat)
    requires x < Pow2(n)
    ensures BitLen(x) <= n
  {
    if x != 0 { BitLenBound(x / 2, n - 1); }
  }

  function Pow2(n: nat): nat {
    if n == 0 then 1 else 2 * Pow2(n - 1)
  }

  lemma SovStep(x: Uint64)
    requires x >= 128
    ensures Sov(x) == 1 + Sov(x / 128)
  {
    assert WithLowBit(x) / 2 == x / 2;
    var y := x / 128;
    BitLenHalves(x);
    BitLenHalves(x / 8);
    assert x / 8 / 8 / 2 == y;
    assert WithLowBit(y) / 2 == y / 2;
  }

  /** sovGenerated(x) is the least n >= 1 with x < 128^n. */
  lemma {:induction false} SovIsLeast(x: Uint64)
    ensures Sov(x) >= 1 && x < Pow128(Sov(x))
    ensures forall n: nat :: 1 <= n && x < Pow128(n) ==> Sov(x) <= n
  {
    if x < 128 {
      assert Sov(x) == 1 by {
        assert Pow2(7) == 128 by { assert Pow2(3) == 8; assert Pow2(5) == 32; }
        BitLenBound(WithLowBit(x), 7);
      }
      assert Pow128(1) == 128 * Pow128(0);
    } else {
      SovStep(x);
      SovIsLeast(x / 128);
      forall n: nat | 1 <= n && x < Pow128(n) ensures Sov(x) <= n {
        assert n != 1;
        assert x / 128 < Pow128(n - 1);
      }
    }
  }

  // ------------------------------------------------------------------ encoding

  /** The bytes of a varint: seven bits a byte, least significant group first, the
      top bit set on every byte but the last. */
  function Bytes(v: nat): (r: seq<Byte>)
    ensures |r| >= 1
  {
    if v < 128 then [v] else [v % 128 + 128] + Bytes(v / 128)
  }

  lemma {:induction false} BytesLength(v: Uint64)
    ensures |Bytes(v)| == Sov(v)
  {
    SovIsLeast(v);
    if v < 128 {
      assert Pow128(1) == 128 * Pow128(0);
      assert Sov(v) <= 1;
    } else {
      SovStep(v);
      BytesLength(v / 128);
    }
  }

  /** A 64-bit value takes at most ten bytes. */
  lemma BytesAtMostTen(v: Uint64)
    ensures 1 <= Sov(v) <= 10
  {
    SovIsLeast(v);
    assert Pow128(10) >= TWO64 by { PowersOf128(); }
  }

  lemma PowersOf128()
    ensures Pow128(9) == 0x8000_0000_0000_0000
    ensures Pow128(10) == 128 * 0x8000_0000_0000_0000
  {
  }

  lemma FirstGroup(done: seq<Byte>, v: nat)
    requires v >= 128
    ensures done + Bytes(v) == done + [v % 128 + 128] + Bytes(v / 128)
    ensures |Bytes(v)| == 1 + |Bytes(v / 128)|
  {
  }

  /** encodeVarintGenerated: writes the varint of v so that it ends at offset. */
  method EncodeVarint(buf: array<Byte>, offset: nat, v: Uint64) returns (base: nat)
    requires Sov(v) <= offset <= buf.Length
    modifies buf
    ensures base == offset - Sov(v)
    ensures buf[base..offset] == Bytes(v)
    ensures buf[..base] == old(buf[..base])
    ensures buf[offset..] == old(buf[offset..])
  {
    BytesLength(v);
    var at := offset - Sov(v);
    base := at;
    var rest: Uint64 := v;
    while rest >= 128
      invariant base <= at < offset && |Bytes(rest)| == offset - at
      invariant buf[base..at] + Bytes(rest) == Bytes(v)
      invariant buf[..base] == old(buf[..base])
      invariant buf[offset..] == old(buf[offset..])
      decreases rest
    {
      ghost var done := buf[base..at];
      FirstGroup(done, rest);
      buf[at] := rest % 128 + 128;
      at := at + 1;
      assert buf[base..at] == done + [rest % 128 + 128];
      rest := rest / 128;
    }
    ghost var done := buf[base..at];
    buf[at] := rest;
    assert buf[base..offset] == done + [rest];
  }

  // ------------------------------------------------------------------ decoding

  /** The number the seven-bit groups of some bytes stand for. */
  function Payload(s: seq<Byte>): nat {
    if s == [] then 0 else s[0] % 128 + 128 * Payload(s[1..])
  }

  /** How many bytes with the continuation bit follow one another from i on. */
  function Continued(data: seq<Byte>, i: nat): (n: nat)
    requires i <= |data|
    ensures i + n <= |data|
    ensures forall j :: i <= j < i + n ==> data[j] >= 128
    ensures i + n < |data| ==> data[i + n] < 128
    decreases |data| - i
  {
    if i < |data| && data[i] >= 128 then 1 + Continued(data, i + 1) else 0
  }

  datatype Decoded = Value(value: Uint64, next: nat) | Overflow | Truncated

  /** What a varint read at i yields: ten continued bytes overflow, a missing last
      byte is a truncation, otherwise the payload modulo 2^64. */
  function ReadVarint(data: seq<Byte>, i: nat): (r: Decoded)
    requires i <= |data|
    ensures r.Value? ==> i < r.next <= |data| && r.next <= i + 10
  {
    var n := Continued(data, i);
    if n >= 10 then Overflow
    else if i + n >= |data| then Truncated
    else Value(Low64(Payload(data[i..i + n + 1])), i + n + 1)
  }

  /** The seven low bits of b moved up by k groups. */
  function Septet(b: Byte, k: nat): nat {
    if k == 0 then b % 128 else 128 * Septet(b, k - 1)
  }

  lemma {:induction false} PayloadAppend(s: seq<Byte>, b: Byte)
    ensures Payload(s + [b]) == Payload(s) + Septet(b, |s|)
  {
    if s == [] {
      assert s + [b] == [b];
      assert [b][1..] == [];
    } else {
      assert (s + [b])[1..] == s[1..] + [b];
      PayloadAppend(s[1..], b);
    }
  }

  lemma {:induction false} PayloadBound(s: seq<Byte>)
    ensures Payload(s) < Pow128(|s|)
  {
    if s != [] { PayloadBound(s[1..]); }
  }

  lemma {:induction false} Pow128Mono(j: nat, k: nat)
    requires j <= k
    ensures Pow128(j) <= Pow128(k)
  {
    if j < k { Pow128Mono(j, k - 1); }
  }

  lemma PayloadShort(s: seq<Byte>)
    requires |s| <= 9
    ensures Payload(s) < 0x8000_0000_0000_0000
  {
    PayloadBound(s);
    Pow128Mono(|s|, 9);
    PowersOf128();
  }

  /** The Go expression uint64(b & 0x7F) << 7k: the group cut to 64 bits. */
  function Shifted(b: Byte, k: nat): Uint64 {
    Low64(Septet(b, k))
  }

  /** One turn of the decode loop. The low 7k bits are all that is set before it, so the
      bitwise or of the source adds; see OrAddsDisjointBits. */
  lemma DecodeTurn(s: seq<Byte>, b: Byte)
    requires |s| <= 9
    ensures Payload(s) + Shifted(b, |s|) == Low64(Payload(s + [b]))
    ensures |s| < 9 ==> Low64(Payload(s + [b])) == Payload(s + [b])
  {
    PayloadAppend(s, b);
    PayloadShort(s);
    if |s| < 9 {
      PayloadShort(s + [b]);
    } else {
      TopGroup(b);
      CutTop(Payload(s), b % 128);
    }
  }

  /** Of the tenth byte only the lowest bit lies within 64 bits. */
  lemma CutTop(low: nat, t: nat)
    requires low < 0x8000_0000_0000_0000
    ensures low + Low64(t * 0x8000_0000_0000_0000) == Low64(low + t * 0x8000_0000_0000_0000)
  {
    var half, odd := t / 2, t % 2;
    var top := odd * 0x8000_0000_0000_0000;
    assert t * 0x8000_0000_0000_0000 == top + half * TWO64;
    Low64Multiple(top, half);
    Low64Multiple(low + top, half);
  }

  lemma TopGroup(b: Byte)
    ensures Septet(b, 9) == b % 128 * 0x8000_0000_0000_0000
  {
    SeptetCube(b, 0);
    SeptetCube(b, 3);
    SeptetCube(b, 6);
  }

  lemma SeptetCube(b: Byte, k: nat)
    ensures Septet(b, k + 3) == 0x20_0000 * Septet(b, k)
  {
    assert Septet(b, k + 2) == 128 * Septet(b, k + 1);
  }

  /** Or-ing groups that do not overlap is adding them, at every position a varint has. */
  lemma OrAddsDisjointBits(low: bv64, group: bv64)
    ensures low < 0x80 ==> low | (group << 7) == low + (group << 7)
    ensures low < 0x4000 ==> low | (group << 14) == low + (group << 14)
    ensures low < 0x20_0000 ==> low | (group << 21) == low + (group << 21)
    ensures low < 0x1000_0000 ==> low | (group << 28) == low + (group << 28)
    ensures low < 0x8_0000_0000 ==> low | (group << 35) == low + (group << 35)
    ensures low < 0x400_0000_0000 ==> low | (group << 42) == low + (group << 42)
    ensures low < 0x2_0000_0000_0000 ==> low | (group << 49) == low + (group << 49)
    ensures low < 0x100_0000_0000_0000 ==> low | (group << 56) == low + (group << 56)
    ensures low < 0x8000_0000_0000_0000 ==> low | (group << 63) == low + (group << 63)
  {
  }

  /** One byte more of what is read from start on. */
  lemma OneMoreByte(data: seq<Byte>, start: nat, i: nat)
    requires start <= i < |data| && i - start <= 9
    ensures Payload(data[start..i]) + Shifted(data[i], i - start) == Low64(Payload(data[start..i + 1]))
    ensures i - start < 9 ==> Low64(Payload(data[start..i + 1])) == Payload(data[start..i + 1])
  {
    hide Payload, Low64, Shifted;
    assert data[start..i + 1] == data[start..i] + [data[i]];
    DecodeTurn(data[start..i], data[i]);
  }

  /** The read loop that every unmarshaller and skipGenerated repeat. */
  method DecodeVarint(data: seq<Byte>, start: nat) returns (r: Decoded)
    requires start <= |data|
    ensures r == ReadVarint(data, start)
  {
    var i := start;
    var wire: Uint64 := 0;
    var k := 0; // the source's shift is 7 * k
    assert Payload(data[start..i]) == 0;
    hide Payload, Low64, Shifted;
    while true
      invariant start <= i <= |data| && k == i - start <= 10
      invariant Continued(data, start) == k + Continued(data, i)
      invariant k <= 9 ==> wire == Payload(data[start..i])
      decreases |data| - i
    {
      if 7 * k >= 64 {
        return Overflow;
      }
      if i >= |data| {
        return Truncated;
      }
      OneMoreByte(data, start, i);
      var b := data[i];
      i := i + 1;
      wire := wire + Shifted(b, k);
      if b < 0x80 {
        return Value(wire, i);
      }
      k := k + 1;
    }
  }

  lemma {:induction false} PayloadOfBytes(v: nat)
    ensures Payload(Bytes(v)) == v
  {
    if v >= 128 {
      PayloadOfBytes(v / 128);
      assert Bytes(v)[1..] == Bytes(v / 128);
    }
  }

  lemma {:induction false} ContinuedOverBytes(data: seq<Byte>, i: nat, v: nat)
    requires i + |Bytes(v)| <= |data|
    requires data[i..i + |Bytes(v)|] == Bytes(v)
    ensures Continued(data, i) == |Bytes(v)| - 1
    decreases v
  {
    var n := |Bytes(v)|;
    assert data[i] == data[i..i + n][0];
    if v >= 128 {
      assert data[i + 1..i + n] == data[i..i + n][1..] == Bytes(v / 128);
      ContinuedOverBytes(data, i + 1, v / 128);
    }
  }

  /** The decode loop returns x for every 64-bit x, wherever the varint stands. */
  lemma VarintRoundTrip(pre: seq<Byte>, x: Uint64, post: seq<Byte>)
    ensures ReadVarint(pre + Bytes(x) + post, |pre|) == Value(x, |pre| + Sov(x))
  {
    var data := pre + Bytes(x) + post;
    var i, n := |pre|, |Bytes(x)|;
    assert n == Sov(x) && n <= 10 by { BytesLength(x); BytesAtMostTen(x); }
    assert data[i..i + n] == Bytes(x);
    assert Continued(data, i) == n - 1 by { ContinuedOverBytes(data, i, x); }
    assert Payload(data[i..i + n]) == x by { PayloadOfBytes(x); }
  }
}
