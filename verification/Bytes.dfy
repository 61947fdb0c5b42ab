/** Fixed-width words as bounded integers, their byte encodings, and exclusive or. */
module Bytes {

  type byte = x: int | 0 <= x < 0x100
  type word16 = x: int | 0 <= x < 0x1_0000
  type word32 = x: int | 0 <= x < 0x1_0000_0000
  type int16 = x: int | -0x8000 <= x < 0x8000

  datatype Option<+T> = None | Some(value: T)

  // ---------------------------------------------------------------- powers

  function Pow2(n: nat): (r: nat)
    ensures r > 0
  {
    if n == 0 then 1 else 2 * Pow2(n - 1)
  }

  function Pow256(n: nat): (r: nat)
    ensures r > 0
  {
    if n == 0 then 1 else 256 * Pow256(n - 1)
  }

  lemma Pow256Next(n: nat)
    ensures Pow256(n + 2) == 0x1_0000 * Pow256(n)
  {
    assert Pow256(n + 1) == 256 * Pow256(n);
  }

  lemma Pow256Values()
    ensures Pow256(2) == 0x1_0000
    ensures Pow256(4) == 0x1_0000_0000
    ensures Pow256(6) == 0x1_0000_0000_0000
    ensures Pow256(8) == 0x1_0000_0000_0000_0000
    ensures Pow256(16) == 0x1_0000_0000_0000_0000_0000_0000_0000_0000
  {
    assert Pow256(0) == 1;
    hide Pow256;
    Pow256Next(0);
    Pow256Next(2);
    Pow256Next(4);
    Pow256Next(6);
    Pow256Next(8);
    Pow256Next(10);
    Pow256Next(12);
    Pow256Next(14);
  }

  lemma Pow2Next(n: nat)
    ensures Pow2(n + 8) == 0x100 * Pow2(n)
  {
    Pow2Four(n);
    Pow2Four(n + 4);
  }

  lemma Pow2Four(n: nat)
    ensures Pow2(n + 4) == 0x10 * Pow2(n)
  {
    assert Pow2(n + 2) == 4 * Pow2(n);
  }

  lemma Pow2Values()
    ensures Pow2(7) == 0x80
    ensures Pow2(8) == 0x100
    ensures Pow2(48) == 0x1_0000_0000_0000
    ensures Pow2(64) == 0x1_0000_0000_0000_0000
  {
    Pow2Start();
    hide Pow2;
    Pow2Next(0);
    Pow2Next(8);
    Pow2Next(16);
    Pow2Next(24);
    Pow2Next(32);
    Pow2Next(40);
    Pow2Next(48);
    Pow2Next(56);
  }

  lemma Pow2Start()
    ensures Pow2(0) == 1 && Pow2(8) == 2 * Pow2(7)
  {
  }

  // ---------------------------------------------------------------- byte order

  /** The low `n` bytes of `v`, most significant first (network order). */
  function ToBe(v: nat, n: nat): (s: seq<byte>)
    ensures |s| == n
  {
    if n == 0 then [] else ToBe(v / 256, n - 1) + [v % 256]
  }

  function FromBe(s: seq<byte>): nat {
    if s == [] then 0 else 256 * FromBe(s[..|s| - 1]) + s[|s| - 1]
  }

  /** The low `n` bytes of `v`, least significant first (host order of the server). */
  function ToLe(v: nat, n: nat): (s: seq<byte>)
    ensures |s| == n
  {
    if n == 0 then [] else [v % 256] + ToLe(v / 256, n - 1)
  }

  function FromLe(s: seq<byte>): nat {
    if s == [] then 0 else s[0] + 256 * FromLe(s[1..])
  }

  lemma {:induction false} FromToBe(v: nat, n: nat)
    requires v < Pow256(n)
    ensures FromBe(ToBe(v, n)) == v
  {
    if n != 0 {
      FromToBe(v / 256, n - 1);
      assert ToBe(v, n)[..n - 1] == ToBe(v / 256, n - 1);
    }
  }

  lemma LowByte(hi: nat, lo: byte)
    ensures (256 * hi + lo) / 256 == hi && (256 * hi + lo) % 256 == lo
  {
  }

  lemma {:induction false} ToFromBe(s: seq<byte>)
    ensures FromBe(s) < Pow256(|s|)
    ensures ToBe(FromBe(s), |s|) == s
  {
    if s != [] {
      var pre, last := s[..|s| - 1], s[|s| - 1];
      ToFromBe(pre);
      LowByte(FromBe(pre), last);
      assert s == pre + [last];
    }
  }

  lemma {:induction false} FromToLe(v: nat, n: nat)
    requires v < Pow256(n)
    ensures FromLe(ToLe(v, n)) == v
  {
    if n != 0 {
      FromToLe(v / 256, n - 1);
      assert ToLe(v, n)[1..] == ToLe(v / 256, n - 1);
    }
  }

  lemma {:induction false} ToFromLe(s: seq<byte>)
    ensures FromLe(s) < Pow256(|s|)
    ensures ToLe(FromLe(s), |s|) == s
  {
    if s != [] {
      var first, post := s[0], s[1..];
      ToFromLe(post);
      LowByte(FromLe(post), first);
      assert s == [first] + post;
    }
  }

  lemma {:induction false} FromBeAppend(a: seq<byte>, b: seq<byte>)
    ensures FromBe(a + b) == FromBe(a) * Pow256(|b|) + FromBe(b)
  {
    if b == [] {
      assert a + b == a;
    } else {
      var pre, last := b[..|b| - 1], b[|b| - 1];
      FromBeAppend(a, pre);
      assert (a + b)[..|a + b| - 1] == a + pre;
      assert FromBe(a + b) == 256 * FromBe(a + pre) + last;
      Regroup(FromBe(a), Pow256(|pre|));
    }
  }

  lemma {:induction false} FromLeAppend(a: seq<byte>, b: seq<byte>)
    ensures FromLe(a + b) == FromLe(a) + Pow256(|a|) * FromLe(b)
  {
    if a == [] {
      assert a + b == b;
    } else {
      var first, post := a[0], a[1..];
      FromLeAppend(post, b);
      assert (a + b)[1..] == post + b;
      assert FromLe(a + b) == first + 256 * FromLe(post + b);
      Regroup(FromLe(b), Pow256(|post|));
    }
  }

  lemma Regroup(x: nat, y: nat)
    ensures 256 * (x * y) == x * (256 * y)
    ensures 256 * (y * x) == (256 * y) * x
  {
  }

  // ---------------------------------------------------------------- exclusive or

  function Xor(a: nat, b: nat): nat
    decreases a + b
  {
    if a == 0 && b == 0 then 0
    else (a % 2 + b % 2) % 2 + 2 * Xor(a / 2, b / 2)
  }

  lemma XorUnfold(a: nat, b: nat, i: nat, j: nat)
    requires i < 2 && j < 2
    ensures Xor(2 * a + i, 2 * b + j) == (i + j) % 2 + 2 * Xor(a, b)
  {
    assert (2 * a + i) / 2 == a && (2 * b + j) / 2 == b;
  }

  /** The defining equation, with the bits named. */
  lemma XorBits(a: nat, b: nat)
    ensures Xor(a, b) == (a % 2 + b % 2) % 2 + 2 * Xor(a / 2, b / 2)
  {
  }

  /** Bit `i` of a number, counted from the least significant one. */
  function BitAt(a: nat, i: nat): (b: nat)
    ensures b < 2
    decreases i
  {
    if i == 0 then a % 2 else BitAt(a / 2, i - 1)
  }

  /** Every bit of the result is set if and only if the two bits differ. */
  lemma {:induction false} XorBitwise(a: nat, b: nat, i: nat)
    ensures BitAt(Xor(a, b), i) == 1 <==> BitAt(a, i) != BitAt(b, i)
    decreases i
  {
    XorBits(a, b);
    hide Xor;
    if i > 0 {
      assert Xor(a, b) / 2 == Xor(a / 2, b / 2);
      XorBitwise(a / 2, b / 2, i - 1);
    }
  }

  lemma {:induction false} XorBound(a: nat, b: nat, k: nat)
    requires a < Pow2(k) && b < Pow2(k)
    ensures Xor(a, b) < Pow2(k)
  {
    if k != 0 {
      XorBits(a, b);
      hide Xor;
      XorBound(a / 2, b / 2, k - 1);
    }
  }

  lemma {:induction false} XorZero(a: nat)
    ensures Xor(a, 0) == a
    ensures Xor(0, a) == a
  {
    if a != 0 {
      XorBits(a, 0);
      XorBits(0, a);
      hide Xor;
      XorZero(a / 2);
    }
  }

  lemma {:induction false} XorCommutes(a: nat, b: nat)
    ensures Xor(a, b) == Xor(b, a)
    decreases a + b
  {
    if a != 0 || b != 0 {
      XorBits(a, b);
      XorBits(b, a);
      hide Xor;
      XorCommutes(a / 2, b / 2);
    }
  }

  lemma BitTwice(i: nat, j: nat)
    requires i < 2 && j < 2
    ensures ((i + j) % 2 + j) % 2 == i
  {
  }

  /** Applying the same mask twice restores the value. */
  lemma {:induction false} XorCancel(a: nat, b: nat)
    ensures Xor(Xor(a, b), b) == a
    decreases a + b
  {
    if a != 0 || b != 0 {
      XorBits(a, b);
      hide Xor;
      var x, i, j := Xor(a / 2, b / 2), a % 2, b % 2;
      XorUnfold(x, b / 2, (i + j) % 2, j);
      XorCancel(a / 2, b / 2);
      assert a == 2 * (a / 2) + i && b == 2 * (b / 2) + j;
      BitTwice(i, j);
    } else {
      assert Xor(0, 0) == 0;
    }
  }

  /** Exclusive or works independently on the bits above and below position `k`. */
  lemma XorSplit(a: nat, c: nat, b: nat, d: nat, k: nat)
    requires c < Pow2(k) && d < Pow2(k)
    ensures Xor(Pow2(k) * a + c, Pow2(k) * b + d) == Pow2(k) * Xor(a, b) + Xor(c, d)
  {
    hide Xor;
    XorJoin(a, c, b, d, k);
  }

  function Join(k: nat, a: nat, c: nat): nat {
    Pow2(k) * a + c
  }

  lemma {:induction false} XorJoin(a: nat, c: nat, b: nat, d: nat, k: nat)
    requires c < Pow2(k) && d < Pow2(k)
    ensures Xor(Join(k, a, c), Join(k, b, d)) == Join(k, Xor(a, b), Xor(c, d))
    decreases k
  {
    if k == 0 {
      assert Xor(0, 0) == 0;
    } else {
      hide *;
      HalfBound(c, k);
      HalfBound(d, k);
      XorJoin(a, c / 2, b, d / 2, k - 1);
      XorJoinStep(a, c / 2, c % 2, b, d / 2, d % 2, k);
    }
  }

  lemma XorJoinStep(a: nat, g: nat, i: nat, b: nat, h: nat, j: nat, k: nat)
    requires k > 0 && i < 2 && j < 2
    ensures Xor(Join(k - 1, a, g), Join(k - 1, b, h)) == Join(k - 1, Xor(a, b), Xor(g, h)) ==>
              Xor(Join(k, a, 2 * g + i), Join(k, b, 2 * h + j)) == Join(k, Xor(a, b), Xor(2 * g + i, 2 * h + j))
  {
    hide *;
    JoinStep(k, a, g, i);
    JoinStep(k, b, h, j);
    XorUnfold(Join(k - 1, a, g), Join(k - 1, b, h), i, j);
    XorUnfold(g, h, i, j);
    JoinStep(k, Xor(a, b), Xor(g, h), (i + j) % 2);
  }

  lemma HalfBound(c: nat, k: nat)
    requires c < Pow2(k) && k > 0
    ensures c / 2 < Pow2(k - 1) && c == 2 * (c / 2) + c % 2
  {
  }

  lemma JoinStep(k: nat, a: nat, h: nat, i: nat)
    requires k > 0
    ensures Join(k, a, 2 * h + i) == 2 * Join(k - 1, a, h) + i
  {
    assert Pow2(k) * a == 2 * (Pow2(k - 1) * a);
  }

  function XorByte(a: byte, b: byte): (r: byte)
  {
    XorBound(a, b, 8);
    Pow2Values();
    Xor(a, b)
  }

  /** Masking byte by byte masks the number that the bytes stand for. */
  lemma {:induction false} XorOfBytes(a: seq<byte>, b: seq<byte>, r: seq<byte>)
    requires |a| == |b| == |r| && forall i :: 0 <= i < |r| ==> r[i] == XorByte(a[i], b[i])
    ensures FromBe(r) == Xor(FromBe(a), FromBe(b))
  {
    if r == [] {
      assert Xor(0, 0) == 0;
    } else {
      var n := |r| - 1;
      hide Xor, XorByte;
      XorOfBytes(a[..n], b[..n], r[..n]);
      XorNextByte(FromBe(a[..n]), a[n], FromBe(b[..n]), b[n]);
    }
  }

  lemma XorNextByte(x: nat, a: byte, y: nat, b: byte)
    ensures Xor(256 * x + a, 256 * y + b) == 256 * Xor(x, y) + XorByte(a, b)
  {
    hide Xor, Pow2;
    Pow2Values();
    XorSplit(x, a, y, b, 8);
  }

  // ---------------------------------------------------------------- modular arithmetic

  function Min(x: nat, y: nat): nat {
    if x < y then x else y
  }

  lemma MulBounds(q: int, m: int)
    requires m > 0
    ensures q >= 1 ==> q * m >= m
    ensures q <= -1 ==> q * m <= -m
  {
  }

  /** Two numbers with the same residue that lie less than the modulus apart are equal. */
  lemma SameResidue(x: int, y: int, m: int)
    requires m > 0 && x % m == y % m
    requires -m < x - y < m
    ensures x == y
  {
    var q := x / m - y / m;
    assert x - y == q * m;
    MulBounds(q, m);
  }

  lemma ModUnique(x: int, q: int, r: int, m: int)
    requires m > 0 && x == q * m + r && 0 <= r < m
    ensures x / m == q && x % m == r
  {
    var d := x / m - q;
    assert x == (x / m) * m + x % m;
    assert d * m == r - x % m;
    MulBounds(d, m);
  }

  /** Adding a multiple of the modulus does not change the residue. */
  lemma AddMultiple(x: int, k: int, m: int)
    requires m > 0
    ensures (x + k * m) % m == x % m
  {
    var q := x / m;
    assert x + k * m == (q + k) * m + x % m;
    ModUnique(x + k * m, q + k, x % m, m);
  }

  /** Residues may be taken before or after an addition. */
  lemma ModAdd(x: int, y: int, m: int)
    requires m > 0
    ensures (x % m + y) % m == (x + y) % m
  {
    AddMultiple(x % m + y, x / m, m);
    assert x + y == x % m + y + (x / m) * m;
  }

  // ---------------------------------------------------------------- arrays

  /** Stores `bytes` at `pos` and touches nothing else. */
  method Put(buf: array<byte>, pos: nat, bytes: seq<byte>)
    requires pos + |bytes| <= buf.Length
    modifies buf
    ensures buf[..] == old(buf[..pos]) + bytes + old(buf[pos + |bytes|..])
  {
    for i := 0 to |bytes|
      invariant buf[..pos + i] == old(buf[..pos]) + bytes[..i]
      invariant buf[pos + i..] == old(buf[pos + i..])
    {
      buf[pos + i] := bytes[i];
      assert buf[..pos + i + 1] == buf[..pos + i] + [bytes[i]];
      assert buf[pos + i + 1..] == old(buf[pos + i..])[1..];
    }
    assert buf[..] == buf[..pos + |bytes|] + buf[pos + |bytes|..];
  }

  /** Fills with zeros from `from` to the end. */
  method FillZero(a: array<byte>, from: nat)
    requires from <= a.Length
    modifies a
    ensures a[..] == old(a[..from]) + Zeros(a.Length - from)
  {
    for i := from to a.Length
      invariant a[..from] == old(a[..from])
      invariant forall k :: from <= k < i ==> a[k] == 0
    {
      a[i] := 0;
    }
    assert a[..] == a[..from] + a[from..];
    assert a[from..] == Zeros(a.Length - from);
  }

  function Zeros(n: nat): (z: seq<byte>)
    ensures |z| == n && forall i :: 0 <= i < n ==> z[i] == 0
  {
    if n == 0 then [] else [0] + Zeros(n - 1)
  }
}
