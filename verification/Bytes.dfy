/** Options, results, bytes, and the big-endian integers that ABI words hold. */
module Options {
  datatype Option<+T> = None | Some(value: T)

  datatype Result<+T> = Ok(value: T) | Err
}

module Bytes {

  type Byte = b: nat | b < 256

  /** A 32-byte word: a topic, a transaction hash, an ABI slot. */
  type Word = w: seq<Byte> | |w| == 32 witness seq(32, _ => 0)

  /** A 20-byte account or contract address. */
  type Address = a: seq<Byte> | |a| == 20 witness seq(20, _ => 0)

  function Pow256(len: nat): nat {
    if len == 0 then 1 else 256 * Pow256(len - 1)
  }

  function ToNat(bs: seq<Byte>): nat {
    if bs == [] then 0 else ToNat(bs[..|bs| - 1]) * 256 + bs[|bs| - 1]
  }

  function FromNat(v: nat, len: nat): (bs: seq<Byte>)
    ensures |bs| == len
  {
    if len == 0 then [] else FromNat(v / 256, len - 1) + [v % 256]
  }

  lemma {:induction false} ToNatOfFromNat(v: nat, len: nat)
    requires v < Pow256(len)
    ensures ToNat(FromNat(v, len)) == v
  {
    if len > 0 {
      var front := FromNat(v / 256, len - 1);
      LastDigit(v, Pow256(len - 1));
      ToNatOfFromNat(v / 256, len - 1);
      ToNatSnoc(front, v % 256);
    }
  }

  lemma {:induction false} LastDigit(v: nat, p: nat)
    requires v < 256 * p
    ensures v / 256 < p && v / 256 * 256 + v % 256 == v
  {
  }

  lemma {:induction false} ToNatSnoc(bs: seq<Byte>, b: Byte)
    ensures ToNat(bs + [b]) == ToNat(bs) * 256 + b
  {
    assert (bs + [b])[..|bs|] == bs;
  }

  lemma {:induction false} Pow256Adds(m: nat, n: nat)
    ensures Pow256(1) == 256 && Pow256(m + n) == Pow256(m) * Pow256(n)
  {
    if m > 0 {
      Pow256Adds(m - 1, n);
      Rescale(256, Pow256(m - 1), Pow256(n));
    }
  }

  lemma {:induction false} Rescale(a: int, b: int, c: int)
    ensures a * (b * c) == (a * b) * c
  {
  }

  /** Bytes are read with the most significant first. */
  lemma {:induction false} ToNatIsBigEndian(a: seq<Byte>, b: seq<Byte>)
    ensures ToNat(a + b) == ToNat(a) * Pow256(|b|) + ToNat(b)
    ensures forall x: Byte :: ToNat([x]) == x
    decreases |b|
  {
    assert forall x: Byte :: [x][..0] == [];
    if b == [] {
      assert a + b == a;
    } else {
      var front, last := b[..|b| - 1], b[|b| - 1];
      ToNatIsBigEndian(a, front);
      assert a + b == (a + front) + [last] && b == front + [last];
      ToNatSnoc(a + front, last);
      ToNatSnoc(front, last);
      ShiftByte(ToNat(a), Pow256(|front|), ToNat(front), last);
    }
  }

  lemma {:induction false} ShiftByte(a: nat, p: nat, f: nat, x: nat)
    ensures (a * p + f) * 256 + x == a * (256 * p) + (f * 256 + x)
  {
    Rescale(a, p, 256);
  }

  lemma {:induction false} FromNatOfToNat(bs: seq<Byte>)
    ensures ToNat(bs) < Pow256(|bs|)
    ensures FromNat(ToNat(bs), |bs|) == bs
  {
    if bs != [] {
      FromNatOfToNat(bs[..|bs| - 1]);
      assert bs == bs[..|bs| - 1] + [bs[|bs| - 1]];
    }
  }
}
