/** Little-endian integers as the engine's memcpy and write calls lay them out. */
module Bytes {

  function Pow256(k: nat): nat {
    if k == 0 then 1 else 256 * Pow256(k - 1)
  }

  // The low k bytes of n, least significant first.
  function Le(n: nat, k: nat): (b: seq<bv8>)
    ensures |b| == k
  {
    if k == 0 then [] else [(n % 256) as bv8] + Le(n / 256, k - 1)
  }

  function FromLe(b: seq<bv8>): nat {
    if b == [] then 0 else b[0] as nat + 256 * FromLe(b[1..])
  }

  // A number that fits survives the round trip.
  lemma {:induction false} LeRoundTrip(n: nat, k: nat)
    requires n < Pow256(k)
    ensures FromLe(Le(n, k)) == n
  {
    if k > 0 {
      LeRoundTrip(n / 256, k - 1);
      assert Le(n, k)[1..] == Le(n / 256, k - 1);
      ByteRoundTrip(n % 256);
    }
  }

  lemma {:induction false} ByteRoundTrip(x: int)
    requires 0 <= x < 256
    ensures (x as bv8) as int == x
  {
    if x > 0 {
      ByteRoundTrip(x - 1);
      NextByte((x - 1) as bv8, x - 1);
    }
  }

  lemma NextByte(b: bv8, y: int)
    requires b as int == y < 255
    ensures (b + 1) as int == y + 1
  {
  }

  lemma ByteBack(b: bv8)
    ensures 0 <= b as int < 256 && (b as int) as bv8 == b
  {
  }

  // Every byte string is the encoding of the number it denotes.
  lemma {:induction false} FromLeRoundTrip(b: seq<bv8>)
    ensures FromLe(b) < Pow256(|b|) && Le(FromLe(b), |b|) == b
  {
    if b != [] {
      FromLeRoundTrip(b[1..]);
      var low, rest := b[0] as int, FromLe(b[1..]);
      ByteBack(b[0]);
      assert (low + 256 * rest) % 256 == low && (low + 256 * rest) / 256 == rest;
      assert b == [b[0]] + b[1..];
    }
  }

  lemma Widths()
    ensures Pow256(1) == 256 && Pow256(2) == 0x1_0000 && Pow256(4) == 0x1_0000_0000
            && Pow256(8) == 0x1_0000_0000_0000_0000
  {
    assert Pow256(2) == 0x1_0000;
    assert Pow256(3) == 0x100_0000;
    assert Pow256(4) == 0x1_0000_0000;
    assert Pow256(5) == 0x100_0000_0000;
    assert Pow256(6) == 0x1_0000_0000_0000;
    assert Pow256(7) == 0x100_0000_0000_0000;
  }

  // ---- Positions ----

  // The byte at position i is the i-th digit of n to the base 256, least significant first.
  lemma {:induction false} LeAt(n: nat, k: nat, i: nat) returns (low: nat, high: nat)
    requires i < k
    ensures n == low + Pow256(i) * (Le(n, k)[i] as int + 256 * high) && low < Pow256(i)
  {
    hide Le, Pow256;
    if i == 0 {
      LeFirst(n, k);
      low, high := 0, n / 256;
    } else {
      low, high := LeAt(n / 256, k - 1, i - 1);
      LeNext(n, k, i);
      Carry(n, low, Pow256(i - 1), Le(n, k)[i] as int + 256 * high, Pow256(i));
      low := n % 256 + 256 * low;
    }
  }

  lemma LeFirst(n: nat, k: nat)
    requires k > 0
    ensures Pow256(0) == 1 && n == 1 * (Le(n, k)[0] as int + 256 * (n / 256))
  {
    ByteRoundTrip(n % 256);
  }

  lemma LeNext(n: nat, k: nat, i: nat)
    requires 0 < i < k
    ensures Le(n, k)[i] == Le(n / 256, k - 1)[i - 1] && Pow256(i) == 256 * Pow256(i - 1)
  {
  }

  lemma Carry(n: nat, low: nat, p: nat, x: nat, q: nat)
    requires n / 256 == low + p * x && low < p && q == 256 * p
    ensures n == n % 256 + 256 * low + q * x && n % 256 + 256 * low < q
  {
    assert n == 256 * (n / 256) + n % 256;
    assert 256 * (p * x) == q * x;
  }
}
