/** Bytes, and unsigned integers stored in them least significant byte first. */
module Bytes {
  type Byte = b: nat | b < 256

  function Pow256(w: nat): (p: nat)
    ensures p >= 1
  {
    if w == 0 then 1 else 256 * Pow256(w - 1)
  }

  function FromLe(bytes: seq<Byte>): (n: nat)
    ensures n < Pow256(|bytes|)
  {
    if bytes == [] then 0 else bytes[0] + 256 * FromLe(bytes[1..])
  }

  // The low `w` bytes of `n`.
  function ToLe(n: nat, w: nat): (bytes: seq<Byte>)
    ensures |bytes| == w
  {
    seq(w, i requires 0 <= i < w => n / Pow256(i) % 256)
  }

  lemma Cancel(a: int, b: int, d: nat)
    requires d > 0 && a * d < b * d
    ensures a < b
  {
    assert a * d - b * d == (a - b) * d;
  }

  lemma Quotient(n: nat, d: nat, q: nat)
    requires d > 0 && q * d <= n < (q + 1) * d
    ensures n / d == q
  {
    Cancel(q, n / d + 1, d);
    Cancel(n / d, q + 1, d);
  }

  lemma DivideTwice(n: nat, p: nat)
    requires p > 0
    ensures n / (256 * p) == n / 256 / p
  {
    var m := n / 256;
    var q := m / p;
    assert q * p <= m < (q + 1) * p;
    assert q * (256 * p) == q * p * 256;
    assert (q + 1) * (256 * p) == (q + 1) * p * 256;
    Quotient(n, 256 * p, q);
  }

  // The first byte is the low one and the rest are those of the quotient.
  lemma ToLeSplits(n: nat, w: nat)
    requires w > 0
    ensures ToLe(n, w)[0] == n % 256 && ToLe(n, w)[1..] == ToLe(n / 256, w - 1)
  {
    forall i | 0 <= i < w - 1
      ensures ToLe(n, w)[1..][i] == ToLe(n / 256, w - 1)[i]
    {
      DivideTwice(n, Pow256(i));
      assert Pow256(i + 1) == 256 * Pow256(i);
    }
  }

  lemma {:induction false} FromToLe(n: nat, w: nat)
    requires n < Pow256(w)
    ensures FromLe(ToLe(n, w)) == n
  {
    if w > 0 {
      FromToLe(n / 256, w - 1);
      ToLeSplits(n, w);
    }
  }

  lemma {:induction false} ToFromLe(bytes: seq<Byte>)
    ensures ToLe(FromLe(bytes), |bytes|) == bytes
  {
    if bytes != [] {
      ToFromLe(bytes[1..]);
      ToLeSplits(FromLe(bytes), |bytes|);
      assert FromLe(bytes) % 256 == bytes[0];
      assert FromLe(bytes) / 256 == FromLe(bytes[1..]);
      assert ToLe(FromLe(bytes), |bytes|) == [bytes[0]] + bytes[1..];
    }
  }

  // The first byte counts least.
  lemma FourByteValue(a: Byte, b: Byte, c: Byte, d: Byte)
    ensures FromLe([a, b, c, d]) == a + 0x100 * b + 0x1_0000 * c + 0x100_0000 * d
  {
    assert [a, b, c, d][1..] == [b, c, d] && [b, c, d][1..] == [c, d] && [c, d][1..] == [d] && [d][1..] == [];
    assert FromLe([d]) == d && FromLe([c, d]) == c + 0x100 * d;
    assert FromLe([b, c, d]) == b + 0x100 * c + 0x1_0000 * d;
  }

  function Zeros(n: nat): (bytes: seq<Byte>)
    ensures |bytes| == n
    ensures forall i :: 0 <= i < n ==> bytes[i] == 0
  {
    seq(n, _ => 0)
  }
}
