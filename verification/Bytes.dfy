/** Bytes and fixed-width integers, as memcpy leaves them on a little-endian host. */
module Bytes {
  newtype byte = x: int | 0 <= x < 0x100
  type uint32 = x: int | 0 <= x < 0x1_0000_0000
  type int32 = x: int | -0x8000_0000 <= x < 0x8000_0000
  type int64 = x: int | -0x8000_0000_0000_0000 <= x < 0x8000_0000_0000_0000

  const U32: nat := 0x1_0000_0000
  const U64: nat := 0x1_0000_0000_0000_0000

  datatype Option<+T> = None | Some(value: T)

  /** 256 to the power k: one more than the largest k-byte number. */
  function Pow256(k: nat): (p: nat)
    ensures p > 0
  {
    if k == 0 then 1 else 256 * Pow256(k - 1)
  }

  /** The low k bytes of n, least significant first. */
  function Encode(n: nat, k: nat): (s: seq<byte>)
    ensures |s| == k
  {
    if k == 0 then [] else [(n % 256) as byte] + Encode(n / 256, k - 1)
  }

  function Decode(s: seq<byte>): nat {
    if s == [] then 0 else s[0] as nat + 256 * Decode(s[1..])
  }

  lemma {:induction false} DecodeBounds(s: seq<byte>)
    ensures Decode(s) < Pow256(|s|)
  {
    if s != [] {
      DecodeBounds(s[1..]);
    }
  }

  /** No two byte strings of one length stand for the same number. */
  lemma {:induction false} EncodeDecode(s: seq<byte>)
    ensures Encode(Decode(s), |s|) == s
  {
    if s != [] {
      EncodeDecode(s[1..]);
      assert Decode(s) % 256 == s[0] as nat && Decode(s) / 256 == Decode(s[1..]);
      assert s == [s[0]] + s[1..];
    }
  }

  /** Byte i stands for its value times 256 to the power i. */
  lemma {:induction false} LeastFirst(n: nat, k: nat, i: nat)
    requires i < k
    ensures Encode(n, k)[i] as nat == n / Pow256(i) % 256
  {
    if i > 0 {
      LeastFirst(n / 256, k - 1, i - 1);
      DivPower(n, i);
    }
  }

  lemma DivPower(n: nat, i: nat)
    requires i > 0
    ensures n / 256 / Pow256(i - 1) == n / Pow256(i)
  {
    var p := Pow256(i - 1);
    var q, r := n / 256 / p, n / 256 % p;
    Regroup(n, p, q, r);
    assert n == (256 * p) * q + (256 * r + n % 256);
    assert 0 <= 256 * r + n % 256 < 256 * p;
    QuotientIs(n, 256 * p, q, 256 * r + n % 256);
  }

  lemma Regroup(n: nat, p: nat, q: int, r: int)
    requires p > 0 && q == n / 256 / p && r == n / 256 % p
    ensures n == (256 * p) * q + (256 * r + n % 256)
  {
    assert n / 256 == p * q + r;
    assert 256 * (p * q) == (256 * p) * q;
  }

  lemma QuotientIs(n: nat, d: nat, q: int, r: int)
    requires d > 0 && n == d * q + r && 0 <= r < d
    ensures n / d == q
  {
    var x := n / d - q;
    assert d * x == d * (n / d) - d * q == r - n % d;
    Scale(d, x);
  }

  lemma Scale(d: int, x: int)
    requires d > 0
    ensures (x > 0 ==> d * x >= d) && (x < 0 ==> d * x <= 0 - d)
  {
    if x > 0 {
      AtLeast(d, x);
    } else if x < 0 {
      AtLeast(d, -x);
      assert d * x == 0 - d * (-x);
    }
  }

  lemma {:induction false} AtLeast(d: int, y: int)
    requires d > 0 && y >= 1
    ensures d * y >= d
    decreases y
  {
    if y > 1 {
      AtLeast(d, y - 1);
      assert d * y == d * (y - 1) + d;
    }
  }

  lemma {:induction false} DecodeEncode(n: nat, k: nat)
    requires n < Pow256(k)
    ensures Decode(Encode(n, k)) == n
  {
    if k > 0 {
      DecodeEncode(n / 256, k - 1);
      assert Encode(n, k)[1..] == Encode(n / 256, k - 1);
    }
  }

  /** uint32_t fields: a size_t stored in one keeps only its low 32 bits. */
  function EncodeU32(n: nat): (s: seq<byte>)
    ensures |s| == 4
  {
    Encode(n % U32, 4)
  }

  lemma DecodeU32(n: nat)
    ensures Decode(EncodeU32(n)) == n % U32
  {
    assert Pow256(4) == U32 by {
      assert Pow256(1) == 256 && Pow256(2) == 0x1_0000;
      assert Pow256(3) == 0x100_0000;
    }
    DecodeEncode(n % U32, 4);
  }

  /** Two's complement in k bytes. */
  function EncodeSigned(i: int, k: nat): (s: seq<byte>)
    requires 0 <= i + Pow256(k)
    ensures |s| == k
  {
    Encode(if i < 0 then i + Pow256(k) else i, k)
  }

  function DecodeSigned(s: seq<byte>): int {
    var n := Decode(s);
    if 2 * n < Pow256(|s|) then n else n - Pow256(|s|)
  }

  lemma DecodeSignedEncode(i: int, k: nat)
    requires 0 <= 2 * i + Pow256(k) && 2 * i < Pow256(k)
    ensures DecodeSigned(EncodeSigned(i, k)) == i
  {
    DecodeEncode(if i < 0 then i + Pow256(k) else i, k);
  }

  lemma Pow256Values()
    ensures Pow256(1) == 0x100 && Pow256(4) == U32 && Pow256(8) == U64
  {
    assert Pow256(2) == 0x1_0000;
    assert Pow256(3) == 0x100_0000;
    assert Pow256(5) == 0x100_0000_0000;
    assert Pow256(6) == 0x1_0000_0000_0000;
    assert Pow256(7) == 0x100_0000_0000_0000;
  }
}
