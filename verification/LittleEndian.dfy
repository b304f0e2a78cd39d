/** Bytes, and the little-endian integers that the wire formats are made of. */
module LittleEndian {
  import Arith

  type Byte = b: nat | b < 256

  function Pow256(n: nat): (p: nat)
    ensures p > 0
    decreases n
  {
    if n == 0 then 1 else 256 * Pow256(n - 1)
  }

  /** The `n` low-order bytes of `v`, least significant first. */
  function Encode(v: nat, n: nat): (r: seq<Byte>)
    ensures |r| == n
    decreases n
  {
    if n == 0 then [] else [v % 256] + Encode(v / 256, n - 1)
  }

  /** The integer whose bytes, least significant first, are `bytes`. */
  function Decode(bytes: seq<Byte>): (v: nat)
    ensures v < Pow256(|bytes|)
    decreases |bytes|
  {
    if bytes == [] then 0 else bytes[0] + 256 * Decode(bytes[1..])
  }

  lemma {:induction false} RoundTrip(v: nat, n: nat)
    requires v < Pow256(n)
    ensures Decode(Encode(v, n)) == v
    decreases n
  {
    if n > 0 {
      RoundTrip(v / 256, n - 1);
      assert Encode(v, n)[1..] == Encode(v / 256, n - 1);
    }
  }

  /** Byte `k` of the encoding holds bits `8 k` to `8 k + 7`. */
  lemma {:induction false} EncodedByte(v: nat, n: nat, k: nat)
    requires k < n
    ensures Encode(v, n)[k] == v / Pow256(k) % 256
    decreases n
  {
    if k > 0 {
      EncodedByte(v / 256, n - 1, k - 1);
      DivTwice(v, Pow256(k - 1));
    }
  }

  lemma DivTwice(v: nat, p: nat)
    requires p > 0
    ensures v / 256 / p == v / (256 * p)
  {
    var q, r := v / 256 / p, v / 256 % p;
    var low := v - 256 * (v / 256);
    assert v / 256 == p * q + r;
    assert v == 256 * (p * q) + (256 * r + low);
    SameProduct(p, q);
    Arith.DivModUnique(v, 256 * p, q, 256 * r + low);
  }

  lemma SameProduct(p: nat, q: nat)
    ensures 256 * (p * q) == (256 * p) * q
  {
  }

  lemma Widths()
    ensures Pow256(2) == 0x1_0000 && Pow256(4) == 0x1_0000_0000 && Pow256(8) == 0x1_0000_0000_0000_0000
  {
    assert Pow256(1) == 256;
    assert Pow256(2) == 0x1_0000;
    assert Pow256(3) == 0x100_0000;
    assert Pow256(4) == 0x1_0000_0000;
    assert Pow256(5) == 0x100_0000_0000;
    assert Pow256(6) == 0x1_0000_0000_0000;
    assert Pow256(7) == 0x100_0000_0000_0000;
  }

  /** The fields of a message laid end to end are found at the sums of their lengths. */
  lemma FourParts(a: seq<Byte>, b: seq<Byte>, c: seq<Byte>, d: seq<Byte>, rest: seq<Byte>)
    ensures
      var all := a + b + c + d + rest;
      var (n1, n2, n3) := (|a|, |a| + |b|, |a| + |b| + |c|);
      && all[0..n1] == a && all[n1..n2] == b && all[n2..n3] == c && all[n3..n3 + |d|] == d
      && all[n3 + |d|..] == rest
  {
  }

  /** The integer in the `n` bytes of a message from position `at`. */
  function Field(message: seq<Byte>, at: nat, n: nat): nat
    requires at + n <= |message|
  {
    Decode(message[at..at + n])
  }
}
