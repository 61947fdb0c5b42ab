/** AES in counter mode with a start block per packet: section 6.5 of NIST SP 800-38A. */
module CtrCipher {
  import opened Bytes

  const AES_BLOCK_SIZE := 16
  const AES_XOR_OFFSET := 8
  const INDEX_RANGE := 0x1_0000_0000_0000
  const COUNTER_RANGE := 0x1_0000_0000_0000_0000_0000_0000_0000_0000

  type Block = s: seq<byte> | |s| == AES_BLOCK_SIZE witness [0, 0, 0, 0, 0, 0, 0, 0, 0, 0, 0, 0, 0, 0, 0, 0]

  /** The low 16 bits of an index survive its wrap. */
  lemma LowBits(x: int)
    ensures (x % INDEX_RANGE) % 0x1_0000 == x % 0x1_0000
  {
    AddMultiple(x % INDEX_RANGE, (x / INDEX_RANGE) * 0x1_0000_0000, 0x1_0000);
  }

  /** One block of the cipher under a key; nothing is known about it. */
  type BlockCipher = (Block, Block) -> Block

  /** The 64-bit word in bytes 8..15, read in host order, is masked with the packet index. */
  function StartBlock(baseIv: Block, index: nat): (iv: Block)
    requires index < 0x1_0000_0000_0000_0000
  {
    baseIv[..AES_XOR_OFFSET] + ToLe(Xor(FromLe(baseIv[AES_XOR_OFFSET..]), index), 8)
  }

  /** The counter is the whole block, read most significant byte first. */
  function CounterBlock(iv: Block, j: nat): (b: Block) {
    ToBe((FromBe(iv) + j) % COUNTER_RANGE, AES_BLOCK_SIZE)
  }

  function KeystreamByte(cipher: BlockCipher, key: Block, iv: Block, i: nat): byte {
    cipher(key, CounterBlock(iv, i / AES_BLOCK_SIZE))[i % AES_BLOCK_SIZE]
  }

  function Crypt(cipher: BlockCipher, key: Block, iv: Block, data: seq<byte>): (r: seq<byte>)
    ensures |r| == |data|
    ensures forall i :: 0 <= i < |data| ==> r[i] == XorByte(data[i], KeystreamByte(cipher, key, iv, i))
  {
    seq(|data|, i requires 0 <= i < |data| => XorByte(data[i], KeystreamByte(cipher, key, iv, i)))
  }

  /**
   * Byte `i` is masked with a byte of the enciphered block whose value, read as one number with the
   * most significant byte first, is the start block plus the number of blocks before it.
   */
  lemma CountsUp(cipher: BlockCipher, key: Block, iv: Block, data: seq<byte>, i: nat, b: Block)
    requires i < |data| && FromBe(b) == (FromBe(iv) + i / 16) % 0x1_0000_0000_0000_0000_0000_0000_0000_0000
    ensures Crypt(cipher, key, iv, data)[i] == XorByte(data[i], cipher(key, b)[i % 16])
  {
    hide FromBe, ToBe, XorByte;
    ToFromBe(b);
  }

  /** There is exactly one such block. */
  lemma CounterExists(iv: Block, j: nat) returns (b: Block)
    ensures FromBe(b) == (FromBe(iv) + j) % 0x1_0000_0000_0000_0000_0000_0000_0000_0000
  {
    hide FromBe, ToBe;
    Pow256Values();
    b := CounterBlock(iv, j);
    FromToBe((FromBe(iv) + j) % COUNTER_RANGE, AES_BLOCK_SIZE);
  }

  /** Decryption is encryption with the same start block. */
  lemma CryptCancels(cipher: BlockCipher, key: Block, iv: Block, data: seq<byte>)
    ensures Crypt(cipher, key, iv, Crypt(cipher, key, iv, data)) == data
  {
    hide Xor, KeystreamByte;
    forall i | 0 <= i < |data|
      ensures Crypt(cipher, key, iv, Crypt(cipher, key, iv, data))[i] == data[i]
    {
      XorCancel(data[i], KeystreamByte(cipher, key, iv, i));
    }
  }

  ghost predicate Injective(cipher: BlockCipher, key: Block) {
    forall a, b :: cipher(key, a) == cipher(key, b) ==> a == b
  }

  /**
   * With a cipher that is injective under each key, decrypting a payload of at least one block
   * with the wrong start block never gives the plaintext back.
   */
  lemma WrongStartGarbles(cipher: BlockCipher, key: Block, iv: Block, wrong: Block, data: seq<byte>)
    requires Injective(cipher, key) && iv != wrong && |data| >= AES_BLOCK_SIZE
    ensures Crypt(cipher, key, wrong, Crypt(cipher, key, iv, data)) != data
  {
    hide Xor, ToBe, FromBe;
    FirstCounterBlock(iv);
    FirstCounterBlock(wrong);
    var k, w := cipher(key, iv), cipher(key, wrong);
    assert k != w;
    var i :| 0 <= i < AES_BLOCK_SIZE && k[i] != w[i];
    assert KeystreamByte(cipher, key, iv, i) == k[i] && KeystreamByte(cipher, key, wrong, i) == w[i];
    var c := Crypt(cipher, key, iv, data);
    var d := Crypt(cipher, key, wrong, c);
    if d[i] == data[i] {
      XorCancel(c[i], w[i]);
      assert Xor(Xor(c[i], w[i]), w[i]) == c[i] == Xor(data[i], w[i]);
      XorInjective(data[i], k[i], w[i]);
    }
  }

  lemma XorInjective(t: nat, i: nat, j: nat)
    ensures Xor(t, i) == Xor(t, j) <==> i == j
  {
    hide Xor;
    XorCommutes(t, i);
    XorCommutes(t, j);
    XorCancel(i, t);
    XorCancel(j, t);
  }

  lemma FirstCounterBlock(iv: Block)
    ensures CounterBlock(iv, 0) == iv
  {
    hide ToBe, FromBe;
    ToFromBe(iv);
    Pow256Values();
  }

  // ---------------------------------------------------------------- no block is used twice

  lemma TailValue(iv: Block)
    ensures FromLe(iv[8..]) == FromLe(iv[8..14]) + INDEX_RANGE * FromLe(iv[14..])
    ensures FromLe(iv[8..14]) < INDEX_RANGE
  {
    hide FromLe, ToLe;
    assert iv[8..] == iv[8..14] + iv[14..];
    FromLeAppend(iv[8..14], iv[14..]);
    ToFromLe(iv[8..14]);
    Pow256Values();
  }

  /** A 48-bit index reaches bytes 8..13 only. */
  lemma StartBlockTail(base: Block, index: nat)
    requires index < INDEX_RANGE
    ensures var iv := StartBlock(base, index);
            && FromLe(iv[8..]) == Xor(FromLe(base[8..]), index)
            && iv[..8] == base[..8] && iv[14..] == base[14..]
  {
    hide FromLe, ToLe, Xor;
    Pow2Values();
    Pow256Values();
    var iv := StartBlock(base, index);
    var lo, hi := FromLe(base[8..14]), FromLe(base[14..]);
    TailValue(base);
    XorSplit(hi, lo, 0, index, 48);
    XorZero(hi);
    XorBound(lo, index, 48);
    ToFromLe(base[8..]);
    XorBound(FromLe(base[8..]), index, 64);
    FromToLe(Xor(FromLe(base[8..]), index), 8);
    assert iv[8..] == ToLe(Xor(FromLe(base[8..]), index), 8);
    TailValue(iv);
    var q := FromLe(iv[14..]);
    ModUnique(FromLe(iv[8..]), q, FromLe(iv[8..14]), INDEX_RANGE);
    ModUnique(FromLe(iv[8..]), hi, Xor(lo, index), INDEX_RANGE);
    ToFromLe(iv[14..]);
    ToFromLe(base[14..]);
  }

  lemma StartBlockInjective(base: Block, i1: nat, i2: nat)
    requires i1 < INDEX_RANGE && i2 < INDEX_RANGE
    ensures StartBlock(base, i1) == StartBlock(base, i2) <==> i1 == i2
  {
    hide FromLe, ToLe, Xor, StartBlock;
    StartBlockTail(base, i1);
    StartBlockTail(base, i2);
    XorInjective(FromLe(base[8..]), i1, i2);
  }

  lemma StartBlockLow(base: Block, index: nat)
    requires index < INDEX_RANGE
    ensures FromBe(StartBlock(base, index)) % 0x1_0000 == FromBe(base[14..])
    ensures FromBe(StartBlock(base, index)) < COUNTER_RANGE
  {
    hide FromBe, StartBlock, ToBe;
    var iv := StartBlock(base, index);
    StartBlockTail(base, index);
    assert iv == iv[..14] + iv[14..];
    FromBeAppend(iv[..14], iv[14..]);
    ToFromBe(iv);
    ToFromBe(base[14..]);
    Pow256Values();
    ModUnique(FromBe(iv), FromBe(iv[..14]), FromBe(base[14..]), 0x1_0000);
  }

  lemma CounterResidue(x: nat)
    ensures (x % COUNTER_RANGE) % 0x1_0000 == x % 0x1_0000
  {
    var q := x / COUNTER_RANGE;
    assert x == x % COUNTER_RANGE + (q * 0x1_0000_0000_0000_0000_0000_0000_0000) * 0x1_0000;
    AddMultiple(x % COUNTER_RANGE, q * 0x1_0000_0000_0000_0000_0000_0000_0000, 0x1_0000);
  }

  /** Packets with different indices never share a counter block, whatever carries occur. */
  lemma CounterBlocksDistinct(base: Block, i1: nat, j1: nat, i2: nat, j2: nat)
    requires i1 < INDEX_RANGE && i2 < INDEX_RANGE && j1 < 0x1_0000 && j2 < 0x1_0000
    ensures CounterBlock(StartBlock(base, i1), j1) == CounterBlock(StartBlock(base, i2), j2)
            <==> i1 == i2 && j1 == j2
  {
    hide FromBe, ToBe, StartBlock;
    var b1, b2 := FromBe(StartBlock(base, i1)), FromBe(StartBlock(base, i2));
    if CounterBlock(StartBlock(base, i1), j1) == CounterBlock(StartBlock(base, i2), j2) {
      Pow256Values();
      FromToBe((b1 + j1) % COUNTER_RANGE, 16);
      FromToBe((b2 + j2) % COUNTER_RANGE, 16);
      StartBlockLow(base, i1);
      StartBlockLow(base, i2);
      CounterResidue(b1 + j1);
      CounterResidue(b2 + j2);
      SameOffset(b1, j1, b2, j2, 0x1_0000);
      SameOffset(j1, b1, j2, b2, COUNTER_RANGE);
      ToFromBe(StartBlock(base, i1));
      ToFromBe(StartBlock(base, i2));
      StartBlockInjective(base, i1, i2);
    }
  }

  /** Equal residues can be cancelled from equal sums. */
  lemma SameOffset(x: int, a: nat, y: int, b: nat, m: nat)
    requires m > 0 && a < m && b < m
    requires x % m == y % m && (x + a) % m == (y + b) % m
    ensures a == b
  {
    ModAdd(x, a, m);
    ModAdd(y, b, m);
    SameShift(x % m, a, b, m);
  }

  lemma SameShift(r: nat, a: nat, b: nat, m: nat)
    requires m > 0 && a < m && b < m && (r + a) % m == (r + b) % m
    ensures a == b
  {
    SameResidue(r + a, r + b, m);
  }

  // ---------------------------------------------------------------- the strategy object

  lemma NextCounter(iv: Block, j: nat)
    ensures CounterBlock(CounterBlock(iv, j), 1) == CounterBlock(iv, j + 1)
  {
    hide FromBe, ToBe;
    Pow256Values();
    FromToBe((FromBe(iv) + j) % COUNTER_RANGE, 16);
    ModAdd(FromBe(iv) + j, 1, COUNTER_RANGE);
  }

  lemma KeystreamAt(cipher: BlockCipher, key: Block, iv: Block, i: nat)
    ensures KeystreamByte(cipher, key, iv, i) == cipher(key, CounterBlock(iv, i / AES_BLOCK_SIZE))[i % AES_BLOCK_SIZE]
  {
  }

  lemma NextIndex(i: nat)
    ensures (i + 1) / AES_BLOCK_SIZE == i / AES_BLOCK_SIZE + (if i % AES_BLOCK_SIZE == AES_BLOCK_SIZE - 1 then 1 else 0)
  {
  }

  class AesEncryption {
    const cipher: BlockCipher
    const key: Block
    const baseIv: Block

    constructor (cipher: BlockCipher, key: Block, baseIv: Block)
      ensures this.cipher == cipher && this.key == key && this.baseIv == baseIv
    {
      this.cipher, this.key, this.baseIv := cipher, key, baseIv;
    }

    /** The factory refuses keys and vectors of any other size. */
    static method Create(cipher: BlockCipher, key: seq<byte>, baseIv: seq<byte>) returns (r: Option<AesEncryption>)
      ensures r.Some? <==> |key| == AES_BLOCK_SIZE && |baseIv| == AES_BLOCK_SIZE
      ensures r.Some? ==> r.value.cipher == cipher && r.value.key == key && r.value.baseIv == baseIv && fresh(r.value)
    {
      if |key| != AES_BLOCK_SIZE || |baseIv| != AES_BLOCK_SIZE {
        return None;
      }
      var e := new AesEncryption(cipher, key, baseIv);
      r := Some(e);
    }

    method Encrypt(buf: array<byte>, off: nat, len: nat, index: nat) returns (n: nat)
      requires off + len <= buf.Length && index < 0x1_0000_0000_0000_0000
      modifies buf
      ensures n == len
      ensures buf[..] == old(buf[..off]) + Crypt(cipher, key, StartBlock(baseIv, index), old(buf[off..off + len]))
                         + old(buf[off + len..])
    {
      hide Xor, FromLe, ToLe, FromBe, ToBe, CounterBlock, KeystreamByte, XorByte;
      if len == 0 {
        return 0;
      }
      var tail := Xor(FromLe(baseIv[AES_XOR_OFFSET..]), index);
      var iv: Block := baseIv[..AES_XOR_OFFSET] + ToLe(tail, 8);
      var counter := iv;
      var pad := cipher(key, counter);
      ghost var data := buf[off..off + len];
      FirstCounterBlock(iv);
      for i := 0 to len
        invariant counter == CounterBlock(iv, i / AES_BLOCK_SIZE) && pad == cipher(key, counter)
        invariant buf[..off] == old(buf[..off]) && buf[off + i..] == old(buf[off + i..])
        invariant forall k :: 0 <= k < i ==> buf[off + k] == Crypt(cipher, key, iv, data)[k]
      {
        assert buf[off + i] == buf[off + i..][0] == data[i];
        KeystreamAt(cipher, key, iv, i);
        NextIndex(i);
        buf[off + i] := XorByte(buf[off + i], pad[i % AES_BLOCK_SIZE]);
        if i % AES_BLOCK_SIZE == AES_BLOCK_SIZE - 1 {
          NextCounter(iv, i / AES_BLOCK_SIZE);
          counter := CounterBlock(counter, 1);
          pad := cipher(key, counter);
        }
        assert buf[off + i + 1..] == old(buf[off + i..])[1..];
      }
      assert buf[off..off + len] == Crypt(cipher, key, iv, data);
      assert buf[..] == buf[..off] + buf[off..off + len] + buf[off + len..];
      n := len;
    }
  }
}
