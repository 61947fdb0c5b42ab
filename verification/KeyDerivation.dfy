/** Session keys and base vectors, derived from shared secrets and the stream's SSRC on both sides. */
module KeyDerivation {
  import opened Bytes
  import opened RtpPacket
  import opened CtrCipher

  /** HKDF-SHA256 with the master key and the SSRC as salt; nothing is known about it. */
  type Kdf = (seq<byte>, seq<byte>) -> Block

  datatype Secrets = Secrets(cipher: BlockCipher, kdf: Kdf, masterKey: seq<byte>, salt: Block)

  function SessionKey(c: Secrets, ssrc: word32): Block {
    c.kdf(c.masterKey, Be32(ssrc))
  }

  /** The salt with its first four bytes masked by the SSRC in network order. */
  function BaseIv(salt: Block, ssrc: word32): Block {
    var m := Be32(ssrc);
    [XorByte(salt[0], m[0]), XorByte(salt[1], m[1]), XorByte(salt[2], m[2]), XorByte(salt[3], m[3])] + salt[4..]
  }

  method DeriveIv(salt: Block, ssrc: word32) returns (iv: Block)
    ensures iv == BaseIv(salt, ssrc)
    ensures FromBe(iv[..4]) == Xor(FromBe(salt[..4]), ssrc) && iv[4..] == salt[4..]
  {
    hide Xor;
    iv := salt;
    iv := iv[0 := XorByte(iv[0], ssrc / 0x100_0000 % 0x100)];
    iv := iv[1 := XorByte(iv[1], ssrc / 0x1_0000 % 0x100)];
    iv := iv[2 := XorByte(iv[2], ssrc / 0x100 % 0x100)];
    iv := iv[3 := XorByte(iv[3], ssrc % 0x100)];
    MiddleBytes(ssrc);
    BaseIvMasksSalt(salt, ssrc);
  }

  /** The first four bytes, read as one number, are masked with the SSRC; the others are those of the salt. */
  lemma BaseIvMasksSalt(salt: Block, ssrc: word32)
    ensures var iv := BaseIv(salt, ssrc); FromBe(iv[..4]) == Xor(FromBe(salt[..4]), ssrc) && iv[4..] == salt[4..]
  {
    hide Xor, Be32, FromBe, XorByte;
    BigEndian(ssrc);
    XorOfBytes(salt[..4], Be32(ssrc), BaseIv(salt, ssrc)[..4]);
  }

  lemma BigEndian(v: word32)
    ensures FromBe(Be32(v)) == v
  {
    var s := Be32(v);
    Word32IsBig(s, 0);
    assert s[0..4] == s;
    Be32At(s, 0, v);
  }

  /** The key of a stream is derived with its SSRC in network order as the salt of the derivation. */
  lemma SessionKeyOf(c: Secrets, ssrc: word32, b: seq<byte>)
    requires |b| == 4 && FromBe(b) == ssrc
    ensures SessionKey(c, ssrc) == c.kdf(c.masterKey, b)
  {
    hide FromBe, Be32;
    BigEndian(ssrc);
    ToFromBe(b);
    ToFromBe(Be32(ssrc));
  }

  lemma MiddleBytes(v: word32)
    ensures Be32(v) == [v / 0x100_0000 % 0x100, v / 0x1_0000 % 0x100, v / 0x100 % 0x100, v % 0x100]
  {
    var hi, lo := v / 0x1_0000, v % 0x1_0000;
    Bytewise(hi, lo);
  }

  lemma Bytewise(hi: word16, lo: word16)
    ensures var v := 0x1_0000 * hi + lo;
            && v / 0x100_0000 == hi / 0x100 && v / 0x1_0000 == hi
            && v / 0x100 % 0x100 == lo / 0x100 && v % 0x100 == lo % 0x100
  {
    var v: int := 0x1_0000 * hi + lo;
    assert v / 0x100 == 0x100 * hi + lo / 0x100;
  }

  /** Streams with different SSRCs never share a base vector. */
  lemma BaseIvInjective(salt: Block, a: word32, b: word32)
    ensures BaseIv(salt, a) == BaseIv(salt, b) <==> a == b
  {
    hide Xor, Be16;
    var m, n := Be32(a), Be32(b);
    if BaseIv(salt, a) == BaseIv(salt, b) {
      var x, y := BaseIv(salt, a), BaseIv(salt, b);
      assert x[0] == y[0] && x[1] == y[1] && x[2] == y[2] && x[3] == y[3];
      XorInjective(salt[0], m[0], n[0]);
      XorInjective(salt[1], m[1], n[1]);
      XorInjective(salt[2], m[2], n[2]);
      XorInjective(salt[3], m[3], n[3]);
      assert m == n;
      assert m[0..4] == m && n[0..4] == n;
      Be32At(m, 0, a);
      Be32At(m, 0, b);
    }
  }
}
