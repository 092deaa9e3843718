/** Byte strings: big-endian numbers and the XOR used for masking. */
module Bytes {

  type byte = bv8

  type ByteString = seq<byte>

  function Pow256(n: nat): (p: nat)
    ensures p > 0
  {
    if n == 0 then 1 else 256 * Pow256(n - 1)
  }

  /** The `len` low bytes of n, most significant first. */
  function BE(n: nat, len: nat): (s: ByteString)
    ensures |s| == len
  {
    if len == 0 then [] else BE(n / 256, len - 1) + [(n % 256) as byte]
  }

  function FromBE(s: ByteString): (n: nat)
    ensures n < Pow256(|s|)
  {
    if s == [] then 0 else FromBE(s[..|s| - 1]) * 256 + s[|s| - 1] as nat
  }

  lemma NextByte(x: byte)
    requires x != 255
    ensures (x + 1) as nat == x as nat + 1
  {
  }

  lemma {:induction false} ByteNat(n: nat)
    requires n < 256
    ensures (n as byte) as nat == n
  {
    if n > 0 {
      ByteNat(n - 1);
      var x := (n - 1) as byte;
      if x == 255 {
        assert false;
      }
      NextByte(x);
    }
  }

  lemma {:induction false} FromToBE(n: nat, len: nat)
    ensures FromBE(BE(n, len)) == n % Pow256(len)
  {
    if len > 0 {
      var s := BE(n, len);
      assert s[..len - 1] == BE(n / 256, len - 1);
      FromToBE(n / 256, len - 1);
      ByteNat(n % 256);
      ModMul(n, Pow256(len - 1));
    }
  }

  lemma BERoundTrip(n: nat, len: nat)
    requires n < Pow256(len)
    ensures FromBE(BE(n, len)) == n
  {
    FromToBE(n, len);
    ModUnique(n, Pow256(len), 0, n);
  }

  lemma ModMul(n: nat, p: nat)
    requires p > 0
    ensures n % (256 * p) == (n / 256) % p * 256 + n % 256
  {
    var m := n / 256;
    var q := m / p;
    var r := m % p * 256 + n % 256;
    assert m == q * p + m % p;
    assert n == m * 256 + n % 256;
    assert n == q * (256 * p) + r by {
      assert (q * p) * 256 == q * (256 * p);
    }
    ModUnique(n, 256 * p, q, r);
  }

  lemma ModUnique(n: nat, d: nat, q: nat, r: nat)
    requires n == q * d + r && r < d
    ensures n % d == r
  {
    var k := n / d;
    assert n == k * d + n % d;
    if k > q {
      MulGap(q, k, d);
    } else if k < q {
      MulGap(k, q, d);
    }
  }

  lemma MulGap(a: nat, b: nat, d: nat)
    requires a < b
    ensures b * d >= a * d + d
  {
    assert b * d == a * d + d + (b - a - 1) * d;
  }

  lemma {:induction false} ToFromBE(s: ByteString)
    ensures BE(FromBE(s), |s|) == s
  {
    if s != [] {
      ToFromBE(s[..|s| - 1]);
      assert FromBE(s) / 256 == FromBE(s[..|s| - 1]);
      assert s == s[..|s| - 1] + [s[|s| - 1]];
    }
  }

  /** The more significant byte comes first. */
  lemma TwoBytes(a: byte, b: byte)
    ensures FromBE([a, b]) == 256 * a as nat + b as nat
  {
    assert [a, b][..1] == [a] && [a][..0] == [];
    assert FromBE([]) == 0 && FromBE([a]) == a as nat;
  }

  lemma FromBESnoc(s: ByteString, b: byte)
    ensures FromBE(s + [b]) == 256 * FromBE(s) + b as nat
  {
    assert (s + [b])[..|s|] == s;
  }

  lemma Pow256Values()
    ensures Pow256(2) == 0x1_0000 && Pow256(4) == 0x1_0000_0000 && Pow256(8) == 0x1_0000_0000_0000_0000
  {
    assert Pow256(1) == 256 && Pow256(3) == 0x100_0000 && Pow256(5) == 0x100_0000_0000;
    assert Pow256(6) == 0x1_0000_0000_0000 && Pow256(7) == 0x100_0000_0000_0000;
  }

  lemma Assoc<T>(a: seq<T>, b: seq<T>, c: seq<T>)
    ensures (a + b) + c == a + (b + c)
  {
  }

  /** A slice of what is there does not change when more comes after it. */
  lemma SliceStable<T>(s: seq<T>, more: seq<T>, i: nat, j: nat)
    requires i <= j <= |s|
    ensures (s + more)[i..j] == s[i..j]
  {
  }

  /** The concatenation of a list of sequences. */
  function Concat<T>(ss: seq<seq<T>>): seq<T> {
    if ss == [] then [] else ss[0] + Concat(ss[1..])
  }

  lemma {:induction false} ConcatAppend<T>(ss: seq<seq<T>>, ts: seq<seq<T>>)
    ensures Concat(ss + ts) == Concat(ss) + Concat(ts)
  {
    if ss == [] {
      assert ss + ts == ts;
    } else {
      assert (ss + ts)[1..] == ss[1..] + ts;
      ConcatAppend(ss[1..], ts);
    }
  }

  lemma ConcatSnoc<T>(ss: seq<seq<T>>, t: seq<T>)
    ensures Concat(ss + [t]) == Concat(ss) + t
  {
    ConcatAppend(ss, [t]);
    assert Concat([t]) == t;
  }
}
