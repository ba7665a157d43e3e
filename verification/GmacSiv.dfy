/** AES-GMAC-SIV: a two-pass encryptor and a one-pass decryptor over the streaming GMAC and counter mode. */
module GmacSiv {
  import opened GcmField
  import opened MachineWords
  import opened BlockCiphers
  import opened GhashSpec
  import opened GmacStream
  import opened GfMul
  import opened CtrSpec
  import opened CtrStream

  // ---- what the construction computes ----

  /** The 64-bit IV, padded with zero bytes to the 96 bits GMAC takes. */
  function IvBytes(iv: bv64): (b: seq<Byte>)
    ensures |b| == 12
  {
    StoreBig(iv) + [0, 0, 0, 0]
  }

  function GmacIv(iv: bv64): Block {
    BlockOf(IvBytes(iv) + [0, 0, 0, 1])
  }

  /** The MAC: GMAC folded to 64 bits. */
  function Mac(k0: BlockCipher, iv: bv64, authenticated: seq<Byte>): bv64 {
    var t := GmacTagCounting(k0, GmacIv(iv), authenticated, |authenticated| % UINT);
    Xor(t.hi, t.lo)
  }

  /** The 128-bit tag that travels: IV and MAC, enciphered. */
  function Tag(k0: BlockCipher, k1: BlockCipher, iv: bv64, aad: seq<Byte>, plain: seq<Byte>): Block {
    k1.encrypt(Block(iv, Mac(k0, iv, Padded(aad) + plain)))
  }

  /** The two halves of a tag, added byte by byte. */
  function Folded(t: seq<Byte>): (m: seq<Byte>)
    requires |t| == 16
    ensures |m| == 8
  {
    seq(8, i requires 0 <= i < 8 => Mix(t[i], t[i + 8]))
  }

  lemma OctetMixed(a: bv64, b: bv64, j: nat)
    ensures Octet(Xor(a, b), j) == Mix(Octet(a, j), Octet(b, j))
  {
    hide Octet, Xor, Mix;
    OctetXor(a, b, j);
    MixIs(Octet(a, j), Octet(b, j));
  }

  lemma FoldedWords(a: bv64, b: bv64)
    ensures StoreBig(Xor(a, b)) == Folded(StoreBig(a) + StoreBig(b))
  {
    hide StoreBig, Octet, Xor, Mix;
    StoreBigOctets(a); StoreBigOctets(b); StoreBigOctets(Xor(a, b));
    OctetMixed(a, b, 0); OctetMixed(a, b, 1); OctetMixed(a, b, 2); OctetMixed(a, b, 3);
    OctetMixed(a, b, 4); OctetMixed(a, b, 5); OctetMixed(a, b, 6); OctetMixed(a, b, 7);
  }

  /** Below 2^32 bytes: the tag enciphers the IV and, byte by byte, the folded GMAC of the padded associated data and
      the plaintext, under the IV followed by four zero bytes and a counter of one. */
  lemma TagInBytes(k0: BlockCipher, k1: BlockCipher, iv: bv64, aad: seq<Byte>, plain: seq<Byte>)
    requires |Padded(aad) + plain| < UINT
    ensures var nonce := BlockOf(StoreBig(iv) + [0, 0, 0, 0] + [0, 0, 0, 1]);
      var t := BytesOf(GmacTag(k0, nonce, Padded(aad) + plain));
      Tag(k0, k1, iv, aad, plain) == k1.encrypt(BlockOf(StoreBig(iv) + Folded(t)))
  {
    hide StoreBig, Folded, Xor, GmacTag, GmacTagCounting, LoadBig, Padded;
    var t := GmacTag(k0, GmacIv(iv), Padded(aad) + plain);
    SameCount(k0, GmacIv(iv), Padded(aad) + plain);
    FoldedWords(t.hi, t.lo);
    BlockBytes(Block(iv, Xor(t.hi, t.lo)));
  }

  lemma SameCount(c: BlockCipher, iv: Block, data: seq<Byte>)
    requires |data| < UINT
    ensures GmacTagCounting(c, iv, data, |data| % UINT) == GmacTag(c, iv, data)
  {
    hide GmacTagCounting;
  }

  /** A word without bit 31, the top bit of a 32-bit counter in its lower half. */
  function Unmarked(w: bv64): bv64 { w & 0xFFFF_FFFF_7FFF_FFFF }

  /** The initial counter block: the tag with the top bit of its 32-bit counter cleared. */
  function CtrStart(tag: Block): Block {
    Block(tag.hi, Unmarked(tag.lo))
  }

  function Lowered(b: Byte): Byte { b & 0x7F }

  lemma MaskedBytes(w: bv64)
    ensures var (a, b) := (StoreBig(w & 0xFFFF_FFFF_7FFF_FFFF), StoreBig(w));
      && a[0] == b[0] && a[1] == b[1] && a[2] == b[2] && a[3] == b[3] && a[4] == Lowered(b[4])
      && a[5] == b[5] && a[6] == b[6] && a[7] == b[7]
  {}

  lemma UnmarkedIs(w: bv64)
    ensures Unmarked(w) == w & 0xFFFF_FFFF_7FFF_FFFF
  {}

  lemma UnmarkedBytes(w: bv64)
    ensures StoreBig(Unmarked(w)) == StoreBig(w)[4 := Lowered(StoreBig(w)[4])]
  {
    hide *;
    MaskedBytes(w);
    UnmarkedIs(w);
  }

  /** It is the tag byte for byte, but for the top bit of byte 12. */
  lemma CtrStartBytes(tag: Block)
    ensures BytesOf(CtrStart(tag)) == BytesOf(tag)[12 := BytesOf(tag)[12] & 0x7F]
  {
    hide StoreBig, Unmarked;
    UnmarkedBytes(tag.lo);
    assert Lowered(BytesOf(tag)[12]) == BytesOf(tag)[12] & 0x7F;
    hide Lowered;
  }

  function Sealed(k1: BlockCipher, tag: Block, plain: seq<Byte>): seq<Byte> {
    CtrCrypt(k1, false, CtrStart(tag), plain)
  }

  /** The first sixteen bytes of output, in terms of the bytes of the tag. */
  lemma FirstBlock(k1: BlockCipher, tag: Block, plain: seq<Byte>)
    ensures |Sealed(k1, tag, plain)| == |plain|
    ensures var ks := BytesOf(k1.encrypt(BlockOf(BytesOf(tag)[12 := BytesOf(tag)[12] & 0x7F])));
      forall i | 0 <= i < 16 && i < |plain| :: Sealed(k1, tag, plain)[i] == plain[i] ^ ks[i]
  {
    CtrStartBytes(tag);
    BlockBytes(CtrStart(tag));
    var ks := BytesOf(k1.encrypt(CtrStart(tag)));
    hide BytesOf, BlockOf, CtrStart, Mix;
    assert Counter(false, CtrStart(tag), 0) == CtrStart(tag);
    forall i | 0 <= i < 16 && i < |plain|
      ensures Sealed(k1, tag, plain)[i] == plain[i] ^ ks[i]
    {
      assert Sealed(k1, tag, plain)[i] == Mix(plain[i], ks[i]);
      MixIs(plain[i], ks[i]);
    }
  }

  lemma UnmarkedHalves(w: bv64)
    ensures High(Unmarked(w)) == High(w) && Low32(Unmarked(w)) == Masked(Low32(w), 0x7FFF_FFFF)
  {}

  /** Every byte of output: the counter of its block is the number of the block added to the last four bytes of the
      tag without their top bit, modulo 2^32. */
  lemma EveryByte(k1: BlockCipher, tag: Block, plain: seq<Byte>, i: nat)
    requires i < |plain|
    ensures var c := Added(Masked(Low32(tag.lo), 0x7FFF_FFFF), Low32(ToWord(i / 16)));
      Sealed(k1, tag, plain)[i] == Mix(plain[i], BytesOf(k1.encrypt(Block(tag.hi, Join(High(tag.lo), c))))[i % 16])
  {
    hide Counter, BytesOf, Mix, Unmarked, High, Low32, Join, Added, Masked, ToWord;
    UnmarkedHalves(tag.lo);
    CounterIsSum(CtrStart(tag), i / 16);
  }

  lemma MixIs(a: Byte, b: Byte)
    ensures Mix(a, b) == a ^ b
  {}

  /** Whether a tag is the one that an encryptor gives for the plaintext the tag and ciphertext decrypt to. */
  ghost predicate Genuine(k0: BlockCipher, k1: BlockCipher, tag: Block, aad: seq<Byte>, plain: seq<Byte>) {
    exists iv :: tag == Tag(k0, k1, iv, aad, plain)
  }

  /** The limit on a message, which keeps the counter from wrapping. */
  const LIMIT := 0x8000_0000

  lemma MaskedStart(lo: bv64)
    ensures Masked(Low32(Unmarked(lo)), 0x8000_0000) == 0
  {}

  lemma SivUnwrapped(tag: Block, n: nat)
    requires n <= LIMIT
    ensures Unwrapped(LowCounter(CtrStart(tag)), n / 16)
  {
    hide Masked, Low32, Unwrapped, Unmarked;
    MaskedStart(tag.lo);
    TopBitClearUnwrapped(LowCounter(CtrStart(tag)), n / 16);
  }

  /** What the decryptor recovers from a tag is what the encryptor put in it. */
  lemma TagOpens(k0: BlockCipher, k1: BlockCipher, iv: bv64, aad: seq<Byte>, plain: seq<Byte>)
    requires k1.Valid()
    ensures k1.decrypt(Tag(k0, k1, iv, aad, plain)) == Block(iv, Mac(k0, iv, Padded(aad) + plain))
  {
    hide Mac;
  }

  /** The decryptor's comparison accepts exactly the genuine tags. */
  lemma ComparisonIsGenuine(k0: BlockCipher, k1: BlockCipher, tag: Block, aad: seq<Byte>, plain: seq<Byte>)
    requires k1.Valid()
    ensures var ivMac := k1.decrypt(tag);
      Mac(k0, ivMac.hi, Padded(aad) + plain) == ivMac.lo <==> Genuine(k0, k1, tag, aad, plain)
  {
    hide Mac;
    var ivMac := k1.decrypt(tag);
    assert tag == k1.encrypt(ivMac);
    if Mac(k0, ivMac.hi, Padded(aad) + plain) == ivMac.lo {
      assert tag == Tag(k0, k1, ivMac.hi, aad, plain);
    }
    if Genuine(k0, k1, tag, aad, plain) {
      var iv :| tag == Tag(k0, k1, iv, aad, plain);
      TagOpens(k0, k1, iv, aad, plain);
    }
  }

  // ---- the encryptor ----

  class Encryptor {
    const gmac: Gmac
    const ctr: Ctr
    var output: array<Byte>
    var tag: Block

    /** Between Init and Finish1: the IV waits in tag, GMAC takes AAD and plaintext. */
    ghost predicate FirstPass()
      reads this, gmac, gmac.r
    {
      && output != gmac.r
      && gmac.Valid() && gmac.iv == IvBytes(tag.hi) + [0, 0, 0, 1]
    }

    /** Between Finish1 and Finish2: tag is final, counter mode writes the output. */
    ghost predicate SecondPass()
      reads this, ctr, ctr.out
    {
      && output != gmac.r
      && ctr.Valid() && ctr.out == output && ctr.start == CtrStart(tag) && ctr.len <= LIMIT
    }

    constructor (k0: BlockCipher, k1: BlockCipher, accelerated: bool)
      ensures gmac.aes == k0 && ctr.aes == k1 && fresh(gmac) && fresh(ctr) && fresh(gmac.r) && gmac.r.Length == 16
    {
      gmac := new Gmac(k0, accelerated);
      ctr := new Ctr(k1, accelerated);
      output := new Byte[0];
      tag := ZERO;
    }

    method Init(iv: bv64, output: array<Byte>)
      requires output != gmac.r && gmac.r.Length == 16
      modifies this, gmac
      ensures FirstPass() && this.output == output && tag == Block(iv, 0) && gmac.data == []
    {
      hide IvBytes;
      this.output := output;
      tag := Block(iv, 0);
      gmac.Init(IvBytes(iv));
    }

    /** The associated data, in one chunk, padded to whole blocks. */
    method Aad(aad: seq<Byte>)
      requires FirstPass() && gmac.data == [] && |aad| < UINT
      modifies gmac, gmac.r
      ensures FirstPass() && gmac.data == Padded(aad)
    {
      hide Streamed, IvBytes;
      gmac.Update(aad);
      var len := |aad| % 16;
      if len != 0 {
        gmac.Update(Zeros(16 - len));
      }
      assert [] + aad == aad;
      assert PadLength(|aad|) == (if len == 0 then 0 else 16 - len);
      assert aad + Zeros(0) == aad;
    }

    method Update1(input: seq<Byte>)
      requires FirstPass() && |input| < UINT
      modifies gmac, gmac.r
      ensures FirstPass() && gmac.data == old(gmac.data) + input
    {
      hide Streamed, IvBytes;
      gmac.Update(input);
    }

    method Finish1()
      requires FirstPass()
      modifies this, gmac, gmac.r, ctr
      ensures SecondPass() && output == old(output) && ctr.data == []
      ensures tag == ctr.aes.encrypt(Block(old(tag).hi, Mac(gmac.aes, old(tag).hi, old(gmac.data))))
    {
      hide Streamed, IvBytes, Ciphered, GmacTagCounting, BlockOf, Xor;
      var t := gmac.Finish();
      tag := Block(tag.hi, Xor(t.hi, t.lo));
      tag := ctr.aes.encrypt(tag);
      ctr.Init(CtrStart(tag), output);
    }

    method Update2(input: seq<Byte>)
      requires SecondPass() && ctr.len + |input| <= output.Length && ctr.len + |input| <= LIMIT
      modifies ctr, output
      ensures SecondPass() && tag == old(tag) && output == old(output) && ctr.data == old(ctr.data) + input
      ensures forall i | ctr.len <= i < output.Length :: output[i] == old(output[i])
    {
      hide Ciphered, CtrStart;
      ctr.Crypt(input);
    }

    method Finish2() returns (t: Block)
      requires SecondPass()
      modifies output
      ensures t == tag && output[..ctr.len] == Sealed(ctr.aes, tag, ctr.data)
      ensures forall i | ctr.len <= i < output.Length :: output[i] == old(output[i])
    {
      hide Ciphered, Unwrapped, LowCounter, CtrStart, CtrCrypt;
      SivUnwrapped(tag, ctr.len);
      ctr.Finish();
      t := tag;
    }
  }

  // ---- the decryptor ----

  class Decryptor {
    const ctr: Ctr
    const gmac: Gmac
    var ivMac: Block
    var output: array<Byte>
    var decryptedLen: nat

    /** The tag this message started with. */
    ghost var tag: Block

    ghost predicate Valid()
      reads this, gmac, gmac.r, ctr, ctr.out
    {
      && output != gmac.r
      && gmac.Valid() && gmac.iv == IvBytes(ivMac.hi) + [0, 0, 0, 1]
      && ctr.Valid() && ctr.out == output && ctr.start == CtrStart(tag) && ctr.len <= LIMIT
      && ivMac == ctr.aes.decrypt(tag) && decryptedLen == ctr.len
    }

    constructor (k0: BlockCipher, k1: BlockCipher, accelerated: bool)
      ensures gmac.aes == k0 && ctr.aes == k1 && fresh(gmac) && fresh(ctr) && fresh(gmac.r) && gmac.r.Length == 16
    {
      ctr := new Ctr(k1, accelerated);
      gmac := new Gmac(k0, accelerated);
      ivMac := ZERO;
      output := new Byte[0];
      decryptedLen := 0;
      tag := ZERO;
    }

    method Init(tag: Block, output: array<Byte>)
      requires output != gmac.r && gmac.r.Length == 16
      modifies this, gmac, ctr
      ensures Valid() && this.output == output && this.tag == tag && gmac.data == [] && ctr.data == []
    {
      hide IvBytes, Ciphered, Streamed;
      ctr.Init(CtrStart(tag), output);
      ivMac := ctr.aes.decrypt(tag);
      gmac.Init(IvBytes(ivMac.hi));
      this.output := output;
      decryptedLen := 0;
      this.tag := tag;
    }

    method Aad(aad: seq<Byte>)
      requires Valid() && gmac.data == [] && |aad| < UINT
      modifies gmac, gmac.r
      ensures Valid() && gmac.data == Padded(aad)
    {
      hide Streamed, IvBytes, Ciphered;
      gmac.Update(aad);
      var len := |aad| % 16;
      if len != 0 {
        gmac.Update(Zeros(16 - len));
      }
      assert [] + aad == aad;
      assert PadLength(|aad|) == (if len == 0 then 0 else 16 - len);
      assert aad + Zeros(0) == aad;
    }

    method Update(input: seq<Byte>)
      requires Valid() && ctr.len + |input| <= output.Length && ctr.len + |input| <= LIMIT
      modifies `decryptedLen, ctr, output
      ensures Valid() && ctr.data == old(ctr.data) + input
      ensures forall i | ctr.len <= i < output.Length :: output[i] == old(output[i])
    {
      hide Streamed, IvBytes, Ciphered, CtrStart;
      ctr.Crypt(input);
      decryptedLen := decryptedLen + |input|;
    }

    /** Decrypt what is left, and compare the MAC of AAD and output with the one in the tag. */
    method Finish() returns (ok: bool)
      requires Valid()
      modifies gmac, gmac.r, output
      ensures output[..ctr.len] == Sealed(ctr.aes, tag, ctr.data)
      ensures ok <==> Mac(gmac.aes, ivMac.hi, old(gmac.data) + output[..ctr.len]) == ivMac.lo
      ensures forall i | ctr.len <= i < output.Length :: output[i] == old(output[i])
    {
      hide Streamed, IvBytes, Ciphered, GmacTagCounting, BlockOf, Xor, Unwrapped, LowCounter, CtrStart, CtrCrypt;
      SivUnwrapped(tag, ctr.len);
      ctr.Finish();
      gmac.Update(output[..decryptedLen]);
      var t := gmac.Finish();
      ok := Xor(t.hi, t.lo) == ivMac.lo;
    }
  }

  // ---- whole runs ----

  function Concat(chunks: seq<seq<Byte>>): seq<Byte> {
    if chunks == [] then [] else Concat(chunks[..|chunks| - 1]) + chunks[|chunks| - 1]
  }

  lemma {:induction false} ConcatPrefix(chunks: seq<seq<Byte>>, i: nat)
    requires i < |chunks|
    ensures Concat(chunks[..i + 1]) == Concat(chunks[..i]) + chunks[i]
    ensures |Concat(chunks[..i + 1])| <= |Concat(chunks)|
    decreases |chunks|
  {
    if i + 1 < |chunks| {
      var shorter := chunks[..|chunks| - 1];
      ConcatPrefix(shorter, i);
      assert shorter[..i + 1] == chunks[..i + 1] && shorter[..i] == chunks[..i];
    } else {
      assert chunks[..i + 1] == chunks;
    }
  }

  method FirstPassOver(e: Encryptor, chunks: seq<seq<Byte>>)
    requires e.FirstPass() && |Concat(chunks)| < UINT
    modifies e.gmac, e.gmac.r
    ensures e.FirstPass() && e.gmac.data == old(e.gmac.data) + Concat(chunks)
  {
    hide Concat, IvBytes, Streamed;
    NoChunks(chunks);
    assert e.gmac.data + [] == e.gmac.data;
    for i := 0 to |chunks|
      invariant e.FirstPass() && e.gmac.data == old(e.gmac.data) + Concat(chunks[..i])
    {
      ConcatPrefix(chunks, i);
      assert old(e.gmac.data) + (Concat(chunks[..i]) + chunks[i]) == old(e.gmac.data) + Concat(chunks[..i]) + chunks[i];
      e.Update1(chunks[i]);
    }
    assert chunks[..|chunks|] == chunks;
  }

  method SecondPassOver(e: Encryptor, chunks: seq<seq<Byte>>)
    requires e.SecondPass() && e.ctr.data == [] && |Concat(chunks)| <= e.output.Length && |Concat(chunks)| <= LIMIT
    modifies e.ctr, e.output
    ensures e.SecondPass() && e.tag == old(e.tag) && e.output == old(e.output) && e.ctr.data == Concat(chunks)
  {
    hide Concat, CtrStart, Ciphered;
    NoChunks(chunks);
    for i := 0 to |chunks|
      invariant e.SecondPass() && e.tag == old(e.tag) && e.output == old(e.output) && e.ctr.data == Concat(chunks[..i])
    {
      ConcatPrefix(chunks, i);
      e.Update2(chunks[i]);
    }
    assert chunks[..|chunks|] == chunks;
  }

  /** Encrypt a message: first pass over one chunking, second pass over another. */
  method Seal(k0: BlockCipher, k1: BlockCipher, accelerated: bool, iv: bv64, aad: seq<Byte>,
              first: seq<seq<Byte>>, second: seq<seq<Byte>>) returns (tag: Block, cipher: seq<Byte>)
    requires Concat(first) == Concat(second) && |Concat(first)| <= LIMIT && |aad| < UINT
    ensures tag == Tag(k0, k1, iv, aad, Concat(first))
    ensures cipher == Sealed(k1, tag, Concat(first)) && |cipher| == |Concat(first)|
    ensures var ks := BytesOf(k1.encrypt(BlockOf(BytesOf(tag)[12 := BytesOf(tag)[12] & 0x7F])));
      forall i | 0 <= i < 16 && i < |cipher| :: cipher[i] == Concat(first)[i] ^ ks[i]
  {
    hide Concat, Mac, Sealed, IvBytes, Streamed, Ciphered, Padded, CtrStart, GmacIv, BytesOf, BlockOf;
    var plain := Concat(first);
    var e := new Encryptor(k0, k1, accelerated);
    var output := new Byte[|plain|];
    e.Init(iv, output);
    e.Aad(aad);
    FirstPassOver(e, first);
    e.Finish1();
    SecondPassOver(e, second);
    tag := e.Finish2();
    cipher := output[..];
    FirstBlock(k1, tag, plain);
  }

  lemma NoChunks(chunks: seq<seq<Byte>>)
    ensures Concat(chunks[..0]) == []
  {}

  /** Decrypt a message fed in any chunking; the result is accepted exactly when the tag is genuine for it. */
  method Open(k0: BlockCipher, k1: BlockCipher, accelerated: bool, tag: Block, aad: seq<Byte>, chunks: seq<seq<Byte>>)
    returns (plain: seq<Byte>, ok: bool)
    requires k1.Valid() && |Concat(chunks)| <= LIMIT && |aad| < UINT
    ensures plain == Sealed(k1, tag, Concat(chunks))
    ensures ok <==> Genuine(k0, k1, tag, aad, plain)
  {
    hide Concat, Mac, Sealed, IvBytes, Streamed, Ciphered, Genuine, BlockCipher.Valid;
    var d := new Decryptor(k0, k1, accelerated);
    var output := new Byte[|Concat(chunks)|];
    d.Init(tag, output);
    d.Aad(aad);
    NoChunks(chunks);
    for i := 0 to |chunks|
      invariant d.Valid() && d.output == output && d.tag == tag && d.gmac.data == Padded(aad)
      invariant d.ctr.data == Concat(chunks[..i])
    {
      ConcatPrefix(chunks, i);
      d.Update(chunks[i]);
    }
    assert chunks[..|chunks|] == chunks;
    ok := d.Finish();
    plain := output[..];
    assert plain == output[..d.ctr.len];
    ComparisonIsGenuine(k0, k1, tag, aad, plain);
  }

  /** Encryption followed by decryption, each in its own chunking and on its own kind of machine. */
  method RoundTrip(k0: BlockCipher, k1: BlockCipher, here: bool, there: bool, iv: bv64, aad: seq<Byte>,
                   first: seq<seq<Byte>>, second: seq<seq<Byte>>, split: seq<Byte> -> seq<seq<Byte>>)
    returns (plain: seq<Byte>, ok: bool)
    requires k1.Valid() && Concat(first) == Concat(second) && |Concat(first)| <= LIMIT && |aad| < UINT
    requires forall s :: Concat(split(s)) == s
    ensures ok && plain == Concat(first)
  {
    hide Concat, Mac, CtrCrypt, BlockCipher.Valid, Tag;
    var tag, cipher := Seal(k0, k1, here, iv, aad, first, second);
    plain, ok := Open(k0, k1, there, tag, aad, split(cipher));
    CtrTwice(k1, false, CtrStart(tag), Concat(first));
    assert tag == Tag(k0, k1, iv, aad, plain);
  }
}
