/** Bytes and fixed-width big-endian integers (`to_be_bytes` / `from_be_bytes`). */
module Bytes {

  type byte = n: int | 0 <= n < 256

  function Pow256(width: nat): (p: nat)
    ensures p > 0
  {
    if width == 0 then 1 else 256 * Pow256(width - 1)
  }

  function ToBe(width: nat, n: nat): (s: seq<byte>)
    ensures |s| == width
  {
    if width == 0 then [] else ToBe(width - 1, n / 256) + [n % 256]
  }

  function FromBe(s: seq<byte>): nat {
    if s == [] then 0 else FromBe(s[..|s| - 1]) * 256 + s[|s| - 1]
  }

  lemma {:induction false} FromToBe(width: nat, n: nat)
    requires n < Pow256(width)
    ensures FromBe(ToBe(width, n)) == n
  {
    if width > 0 {
      FromToBe(width - 1, n / 256);
      assert ToBe(width, n)[..width - 1] == ToBe(width - 1, n / 256);
    }
  }

  lemma {:induction false} ToFromBe(s: seq<byte>)
    ensures FromBe(s) < Pow256(|s|) && ToBe(|s|, FromBe(s)) == s
  {
    if s != [] {
      ToFromBe(s[..|s| - 1]);
      assert s == s[..|s| - 1] + [s[|s| - 1]];
    }
  }

  /** The most significant byte comes first. */
  lemma {:induction false} BigEndian(width: nat, n: nat, k: nat)
    requires k < width
    ensures ToBe(width, n)[k] == n / Pow256(width - 1 - k) % 256
  {
    if k < width - 1 {
      BigEndian(width - 1, n / 256, k);
      DivideTwice(n, Pow256(width - 2 - k));
      assert Pow256(width - 1 - k) == 256 * Pow256(width - 2 - k);
    } else {
      assert Pow256(0) == 1;
    }
  }

  lemma DivideTwice(n: nat, d: nat)
    requires d > 0
    ensures n / 256 / d == n / (256 * d)
  {
    var q := n / 256 / d;
    var r := n / 256 % d;
    assert n / 256 == q * d + r;
    assert n == (q * d + r) * 256 + n % 256;
    assert (q * d + r) * 256 == q * (256 * d) + r * 256;
    var rest := r * 256 + n % 256;
    assert r <= d - 1;
    assert r * 256 <= (d - 1) * 256;
    assert 0 <= rest < 256 * d;
    QuotientIs(n, 256 * d, q, rest);
  }

  lemma QuotientIs(n: nat, d: nat, q: nat, r: nat)
    requires d > 0 && n == q * d + r && r < d
    ensures n / d == q
  {
    var q', r' := n / d, n % d;
    assert n == q' * d + r';
    if q > q' {
      AtLeastOne(q, q', d);
    } else if q' > q {
      AtLeastOne(q', q, d);
    }
  }

  lemma {:induction false} AtLeastOne(a: nat, b: nat, d: nat)
    requires a > b
    ensures a * d >= b * d + d
  {
    OneMore(a - 1, d);
    if a > b + 1 {
      AtLeastOne(a - 1, b, d);
    }
  }

  lemma OneMore(a: nat, d: nat)
    ensures (a + 1) * d == a * d + d
  {
  }

  lemma Pow256Values()
    ensures Pow256(2) == 0x1_0000 && Pow256(4) == 0x1_0000_0000 && Pow256(8) == 0x1_0000_0000_0000_0000
  {
    assert Pow256(4) == 256 * Pow256(3);
    assert Pow256(6) == 256 * Pow256(5);
    assert Pow256(8) == 256 * Pow256(7);
  }
}
