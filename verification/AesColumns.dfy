/** MixColumns and its inverse on one column (sections 5.1.3 and 5.3.3 of FIPS 197), from products in GF(2^8). */
module AesColumns {
  import opened AesTables

  function Add32(a: bv32, b: bv32): bv32 { a ^ b }

  /** One row of MixColumns, from the byte of that row down and around. */
  function MixRow(a: bv8, b: bv8, c: bv8, d: bv8): bv8 {
    Sum8(GMul(a, 2), GMul(b, 3), c, d)
  }

  function InvMixRow(a: bv8, b: bv8, c: bv8, d: bv8): bv8 {
    Sum8(GMul(a, 14), GMul(b, 11), GMul(c, 13), GMul(d, 9))
  }

  function MixColumn(w: bv32): bv32 {
    var a, b, c, d := Byte0(w), Byte1(w), Byte2(w), Byte3(w);
    FromBytes(MixRow(a, b, c, d), MixRow(b, c, d, a), MixRow(c, d, a, b), MixRow(d, a, b, c))
  }

  function InvMixColumn(w: bv32): bv32 {
    var a, b, c, d := Byte0(w), Byte1(w), Byte2(w), Byte3(w);
    FromBytes(InvMixRow(a, b, c, d), InvMixRow(b, c, d, a), InvMixRow(c, d, a, b), InvMixRow(d, a, b, c))
  }

  lemma Add8Laws(a: bv8, b: bv8, c: bv8)
    ensures Add8(a, b) == Add8(b, a) && Add8(Add8(a, b), c) == Add8(a, Add8(b, c))
    ensures Add8(a, 0) == a && Add8(0, a) == a && Add8(a, a) == 0
  {}

  lemma Add8Swap(a: bv8, b: bv8, c: bv8, d: bv8)
    ensures Add8(Add8(a, b), Add8(c, d)) == Add8(Add8(a, c), Add8(b, d))
  {
    hide *;
    Add8Laws(a, b, Add8(c, d)); Add8Laws(a, c, Add8(b, d));
    Add8Laws(b, c, d); Add8Laws(c, b, d);
  }

  lemma Sum8Add(a: bv8, b: bv8, c: bv8, d: bv8, a': bv8, b': bv8, c': bv8, d': bv8)
    ensures Add8(Sum8(a, b, c, d), Sum8(a', b', c', d')) == Sum8(Add8(a, a'), Add8(b, b'), Add8(c, c'), Add8(d, d'))
  {
    hide Add8;
    Add8Swap(Add8(a, b), Add8(c, d), Add8(a', b'), Add8(c', d'));
    Add8Swap(a, b, a', b'); Add8Swap(c, d, c', d');
  }

  lemma Sum8Rotate(a: bv8, b: bv8, c: bv8, d: bv8)
    ensures Sum8(b, c, d, a) == Sum8(a, b, c, d) && Sum8(c, d, a, b) == Sum8(a, b, c, d)
      && Sum8(d, a, b, c) == Sum8(a, b, c, d)
  {
    hide Add8;
    Add8Laws(Add8(a, b), Add8(c, d), 0); Add8Laws(a, d, 0); Add8Laws(b, c, 0); Add8Laws(Add8(a, d), Add8(b, c), 0);
    Add8Swap(a, d, b, c); Add8Laws(c, d, 0);
  }

  lemma Sum8Transpose(a0: bv8, a1: bv8, a2: bv8, a3: bv8, b0: bv8, b1: bv8, b2: bv8, b3: bv8,
                      c0: bv8, c1: bv8, c2: bv8, c3: bv8, d0: bv8, d1: bv8, d2: bv8, d3: bv8)
    ensures Sum8(Sum8(a0, b0, c0, d0), Sum8(a1, b1, c1, d1), Sum8(a2, b2, c2, d2), Sum8(a3, b3, c3, d3))
      == Sum8(Sum8(a0, a1, a2, a3), Sum8(b0, b1, b2, b3), Sum8(c0, c1, c2, c3), Sum8(d0, d1, d2, d3))
  {
    hide *;
    Sum8Add(a0, b0, c0, d0, a1, b1, c1, d1); Sum8Add(a2, b2, c2, d2, a3, b3, c3, d3);
    Sum8Add(Add8(a0, a1), Add8(b0, b1), Add8(c0, c1), Add8(d0, d1), Add8(a2, a3), Add8(b2, b3), Add8(c2, c3),
      Add8(d2, d3));
    Sum8Is(Sum8(a0, b0, c0, d0), Sum8(a1, b1, c1, d1), Sum8(a2, b2, c2, d2), Sum8(a3, b3, c3, d3));
    Sum8Is(a0, a1, a2, a3); Sum8Is(b0, b1, b2, b3); Sum8Is(c0, c1, c2, c3); Sum8Is(d0, d1, d2, d3);
  }

  lemma Sum8Is(a: bv8, b: bv8, c: bv8, d: bv8)
    ensures Sum8(a, b, c, d) == Add8(Add8(a, b), Add8(c, d))
  {}

  lemma XTimeLinear(a: bv8, b: bv8)
    ensures XTime(Add8(a, b)) == Add8(XTime(a), XTime(b))
  {
    hide Add8, Shl8, Fold8;
    Shl8Linear(a, b); Fold8Linear(a, b);
    Add8Swap(Shl8(a), Shl8(b), Fold8(a), Fold8(b));
  }

  lemma Shl8Linear(a: bv8, b: bv8)
    ensures Shl8(Add8(a, b)) == Add8(Shl8(a), Shl8(b))
  {}

  lemma Fold8Linear(a: bv8, b: bv8)
    ensures Fold8(Add8(a, b)) == Add8(Fold8(a), Fold8(b))
  {}

  lemma TimesBitLinear(k: bv8, a: bv8, b: bv8)
    ensures TimesBit(k, Add8(a, b)) == Add8(TimesBit(k, a), TimesBit(k, b))
  {}

  lemma GMulLinear(a: bv8, b: bv8, k: bv8)
    ensures GMul(Add8(a, b), k) == Add8(GMul(a, k), GMul(b, k))
  {
    hide Add8, Sum8, XTime, TimesBit;
    var a1, b1 := XTime(a), XTime(b);
    var a2, b2 := XTime(a1), XTime(b1);
    var a3, b3 := XTime(a2), XTime(b2);
    var a4, b4 := XTime(a3), XTime(b3);
    var a5, b5 := XTime(a4), XTime(b4);
    var a6, b6 := XTime(a5), XTime(b5);
    var a7, b7 := XTime(a6), XTime(b6);
    XTimeLinear(a, b); XTimeLinear(a1, b1); XTimeLinear(a2, b2); XTimeLinear(a3, b3);
    XTimeLinear(a4, b4); XTimeLinear(a5, b5); XTimeLinear(a6, b6);
    TimesBitLinear(k, a, b); TimesBitLinear(k >> 1, a1, b1); TimesBitLinear(k >> 2, a2, b2);
    TimesBitLinear(k >> 3, a3, b3);
    TimesBitLinear(k >> 4, a4, b4); TimesBitLinear(k >> 5, a5, b5); TimesBitLinear(k >> 6, a6, b6);
    TimesBitLinear(k >> 7, a7, b7);
    Sum8Add(TimesBit(k, a), TimesBit(k >> 1, a1), TimesBit(k >> 2, a2), TimesBit(k >> 3, a3),
            TimesBit(k, b), TimesBit(k >> 1, b1), TimesBit(k >> 2, b2), TimesBit(k >> 3, b3));
    Sum8Add(TimesBit(k >> 4, a4), TimesBit(k >> 5, a5), TimesBit(k >> 6, a6), TimesBit(k >> 7, a7),
            TimesBit(k >> 4, b4), TimesBit(k >> 5, b5), TimesBit(k >> 6, b6), TimesBit(k >> 7, b7));
    Add8Swap(Sum8(TimesBit(k, a), TimesBit(k >> 1, a1), TimesBit(k >> 2, a2), TimesBit(k >> 3, a3)),
             Sum8(TimesBit(k >> 4, a4), TimesBit(k >> 5, a5), TimesBit(k >> 6, a6), TimesBit(k >> 7, a7)),
             Sum8(TimesBit(k, b), TimesBit(k >> 1, b1), TimesBit(k >> 2, b2), TimesBit(k >> 3, b3)),
             Sum8(TimesBit(k >> 4, b4), TimesBit(k >> 5, b5), TimesBit(k >> 6, b6), TimesBit(k >> 7, b7)));
  }

  lemma GMulSum(a: bv8, b: bv8, c: bv8, d: bv8, k: bv8)
    ensures GMul(Sum8(a, b, c, d), k) == Sum8(GMul(a, k), GMul(b, k), GMul(c, k), GMul(d, k))
  {
    hide Add8, GMul;
    GMulLinear(Add8(a, b), Add8(c, d), k); GMulLinear(a, b, k); GMulLinear(c, d, k);
  }

  function Add3(a: bv8, b: bv8, c: bv8): bv8 { Add8(Add8(a, b), c) }

  // ---- products with the constants, by repeated multiplication by {02} ----

  lemma ByTwoThree(b: bv8)
    ensures GMul(b, 2) == XTime(b) && GMul(b, 3) == Add8(XTime(b), b)
  {
    hide XTime;
  }

  lemma ByNine(b: bv8)
    ensures GMul(b, 9) == Add8(XTime(XTime(XTime(b))), b)
  {
    hide XTime;
  }

  lemma ByEleven(b: bv8)
    ensures GMul(b, 11) == Add3(XTime(XTime(XTime(b))), XTime(b), b)
  {
    hide XTime;
  }

  lemma ByThirteen(b: bv8)
    ensures GMul(b, 13) == Add3(XTime(XTime(XTime(b))), XTime(XTime(b)), b)
  {
    hide XTime;
  }

  lemma ByFourteen(b: bv8)
    ensures GMul(b, 14) == Add3(XTime(XTime(XTime(b))), XTime(XTime(b)), XTime(b))
  {
    hide XTime;
  }

  lemma Constants(b: bv8)
    ensures GMul(b, 2) == XTime(b) && GMul(b, 3) == Add8(XTime(b), b)
    ensures GMul(b, 9) == Add8(XTime(XTime(XTime(b))), b)
    ensures GMul(b, 11) == Add3(XTime(XTime(XTime(b))), XTime(b), b)
    ensures GMul(b, 13) == Add3(XTime(XTime(XTime(b))), XTime(XTime(b)), b)
    ensures GMul(b, 14) == Add3(XTime(XTime(XTime(b))), XTime(XTime(b)), XTime(b))
  {
    hide *;
    ByTwoThree(b); ByNine(b); ByEleven(b); ByThirteen(b); ByFourteen(b);
  }

  lemma XTimeAdd3(a: bv8, b: bv8, c: bv8)
    ensures XTime(Add3(a, b, c)) == Add3(XTime(a), XTime(b), XTime(c))
  {
    hide Add8, XTime;
    XTimeLinear(Add8(a, b), c); XTimeLinear(a, b);
  }

  /** The products of two constants, as sums of the powers x1 = {02}b to x4 = {10}b. */
  lemma TimesTwice(b: bv8, x1: bv8, x2: bv8, x3: bv8, x4: bv8)
    requires x1 == XTime(b) && x2 == XTime(x1) && x3 == XTime(x2) && x4 == XTime(x3)
    ensures GMul(b, 9) == Add8(x3, b) && GMul(b, 11) == Add3(x3, x1, b) && GMul(b, 13) == Add3(x3, x2, b)
      && GMul(b, 14) == Add3(x3, x2, x1)
    ensures GMul(GMul(b, 2), 9) == Add8(x4, x1) && GMul(GMul(b, 2), 11) == Add3(x4, x2, x1)
    ensures GMul(GMul(b, 2), 13) == Add3(x4, x3, x1) && GMul(GMul(b, 2), 14) == Add3(x4, x3, x2)
    ensures GMul(GMul(b, 3), 9) == Add8(Add8(x4, x1), Add8(x3, b))
      && GMul(GMul(b, 3), 11) == Add8(Add3(x4, x2, x1), Add3(x3, x1, b))
    ensures GMul(GMul(b, 3), 13) == Add8(Add3(x4, x3, x1), Add3(x3, x2, b))
      && GMul(GMul(b, 3), 14) == Add8(Add3(x4, x3, x2), Add3(x3, x2, x1))
  {
    hide *;
    Constants(b); Constants(x1);
    GMulLinear(x1, b, 9); GMulLinear(x1, b, 11); GMulLinear(x1, b, 13); GMulLinear(x1, b, 14);
  }

  lemma TimesTwiceBack(b: bv8, x1: bv8, x2: bv8, x3: bv8, x4: bv8)
    requires x1 == XTime(b) && x2 == XTime(x1) && x3 == XTime(x2) && x4 == XTime(x3)
    ensures GMul(GMul(b, 9), 2) == Add8(x4, x1) && GMul(GMul(b, 11), 2) == Add3(x4, x2, x1)
    ensures GMul(GMul(b, 13), 2) == Add3(x4, x3, x1) && GMul(GMul(b, 14), 2) == Add3(x4, x3, x2)
    ensures GMul(GMul(b, 9), 3) == Add8(Add8(x4, x1), Add8(x3, b))
      && GMul(GMul(b, 11), 3) == Add8(Add3(x4, x2, x1), Add3(x3, x1, b))
    ensures GMul(GMul(b, 13), 3) == Add8(Add3(x4, x3, x1), Add3(x3, x2, b))
      && GMul(GMul(b, 14), 3) == Add8(Add3(x4, x3, x2), Add3(x3, x2, x1))
  {
    hide *;
    Constants(b);
    XTimeLinear(x3, b); XTimeAdd3(x3, x1, b); XTimeAdd3(x3, x2, b); XTimeAdd3(x3, x2, x1);
    ByTwoThree(GMul(b, 9)); ByTwoThree(GMul(b, 11)); ByTwoThree(GMul(b, 13)); ByTwoThree(GMul(b, 14));
  }

  lemma Add8Is(a: bv8, b: bv8)
    ensures Add8(a, b) == a ^ b
  {}
  lemma Add3Is(a: bv8, b: bv8, c: bv8)
    ensures Add3(a, b, c) == a ^ b ^ c
  {}
  lemma FourIs(a: bv8, b: bv8, c: bv8, d: bv8)
    ensures Add8(Add8(a, b), Add8(c, d)) == a ^ b ^ c ^ d && Sum8(a, b, c, d) == a ^ b ^ c ^ d
  {}
  lemma SixIs(a: bv8, b: bv8, c: bv8, d: bv8, e: bv8, f: bv8)
    ensures Add8(Add3(a, b, c), Add3(d, e, f)) == (a ^ b ^ c) ^ (d ^ e ^ f)
  {}

  lemma Cancels1(b: bv8, x1: bv8, x2: bv8, x3: bv8, x4: bv8, s1: bv8, s2: bv8, s3: bv8, s4: bv8)
    requires s1 == (x4 ^ x3 ^ x2) && s2 == (x3 ^ x1 ^ b) && s3 == (x3 ^ x2 ^ b) && s4 == (x4 ^ x1 ^ x3 ^ b)
    ensures s1 ^ s2 ^ s3 ^ s4 == b
  {}
  lemma Cancelled1(b: bv8, x1: bv8, x2: bv8, x3: bv8, x4: bv8)
    ensures Sum8(Add3(x4, x3, x2), Add3(x3, x1, b), Add3(x3, x2, b), Add8(Add8(x4, x1), Add8(x3, b))) == b
  {
    hide *;
    Add3Is(x4, x3, x2); Add3Is(x3, x1, b); Add3Is(x3, x2, b); FourIs(x4, x1, x3, b);
    FourIs(Add3(x4, x3, x2), Add3(x3, x1, b), Add3(x3, x2, b), Add8(Add8(x4, x1), Add8(x3, b)));
    Cancels1(b, x1, x2, x3, x4, Add3(x4, x3, x2), Add3(x3, x1, b), Add3(x3, x2, b), Add8(Add8(x4, x1), Add8(x3, b)));
  }
  lemma Cancels2(b: bv8, x1: bv8, x2: bv8, x3: bv8, x4: bv8, s1: bv8, s2: bv8, s3: bv8, s4: bv8)
    requires s1 == ((x4 ^ x3 ^ x2) ^ (x3 ^ x2 ^ x1)) && s2 == (x4 ^ x2 ^ x1) && s3 == (x3 ^ x2 ^ b) && s4 == (x3 ^ b)
    ensures s1 ^ s2 ^ s3 ^ s4 == 0
  {}
  lemma Cancelled2(b: bv8, x1: bv8, x2: bv8, x3: bv8, x4: bv8)
    ensures Sum8(Add8(Add3(x4, x3, x2), Add3(x3, x2, x1)), Add3(x4, x2, x1), Add3(x3, x2, b), Add8(x3, b)) == 0
  {
    hide *;
    SixIs(x4, x3, x2, x3, x2, x1); Add3Is(x4, x2, x1); Add3Is(x3, x2, b); Add8Is(x3, b);
    FourIs(Add8(Add3(x4, x3, x2), Add3(x3, x2, x1)), Add3(x4, x2, x1), Add3(x3, x2, b), Add8(x3, b));
    Cancels2(b, x1, x2, x3, x4, Add8(Add3(x4, x3, x2), Add3(x3, x2, x1)), Add3(x4, x2, x1),
      Add3(x3, x2, b), Add8(x3, b));
  }
  lemma Cancels3(b: bv8, x1: bv8, x2: bv8, x3: bv8, x4: bv8, s1: bv8, s2: bv8, s3: bv8, s4: bv8)
    requires s1 == (x3 ^ x2 ^ x1) && s2 == ((x4 ^ x2 ^ x1) ^ (x3 ^ x1 ^ b)) && s3 == (x4 ^ x3 ^ x1) && s4 == (x3 ^ b)
    ensures s1 ^ s2 ^ s3 ^ s4 == 0
  {}
  lemma Cancelled3(b: bv8, x1: bv8, x2: bv8, x3: bv8, x4: bv8)
    ensures Sum8(Add3(x3, x2, x1), Add8(Add3(x4, x2, x1), Add3(x3, x1, b)), Add3(x4, x3, x1), Add8(x3, b)) == 0
  {
    hide *;
    Add3Is(x3, x2, x1); SixIs(x4, x2, x1, x3, x1, b); Add3Is(x4, x3, x1); Add8Is(x3, b);
    FourIs(Add3(x3, x2, x1), Add8(Add3(x4, x2, x1), Add3(x3, x1, b)), Add3(x4, x3, x1), Add8(x3, b));
    Cancels3(b, x1, x2, x3, x4, Add3(x3, x2, x1), Add8(Add3(x4, x2, x1), Add3(x3, x1, b)),
      Add3(x4, x3, x1), Add8(x3, b));
  }
  lemma Cancels4(b: bv8, x1: bv8, x2: bv8, x3: bv8, x4: bv8, s1: bv8, s2: bv8, s3: bv8, s4: bv8)
    requires s1 == (x3 ^ x2 ^ x1) && s2 == (x3 ^ x1 ^ b) && s3 == ((x4 ^ x3 ^ x1) ^ (x3 ^ x2 ^ b)) && s4 == (x4 ^ x1)
    ensures s1 ^ s2 ^ s3 ^ s4 == 0
  {}
  lemma Cancelled4(b: bv8, x1: bv8, x2: bv8, x3: bv8, x4: bv8)
    ensures Sum8(Add3(x3, x2, x1), Add3(x3, x1, b), Add8(Add3(x4, x3, x1), Add3(x3, x2, b)), Add8(x4, x1)) == 0
  {
    hide *;
    Add3Is(x3, x2, x1); Add3Is(x3, x1, b); SixIs(x4, x3, x1, x3, x2, b); Add8Is(x4, x1);
    FourIs(Add3(x3, x2, x1), Add3(x3, x1, b), Add8(Add3(x4, x3, x1), Add3(x3, x2, b)), Add8(x4, x1));
    Cancels4(b, x1, x2, x3, x4, Add3(x3, x2, x1), Add3(x3, x1, b), Add8(Add3(x4, x3, x1), Add3(x3, x2, b)),
      Add8(x4, x1));
  }

  /** The sums that the entries of the product of the two matrices come to: every power but {01} cancels. */
  lemma Sums(b: bv8, x1: bv8, x2: bv8, x3: bv8, x4: bv8)
    ensures Sum8(Add3(x4, x3, x2), Add3(x3, x1, b), Add3(x3, x2, b), Add8(Add8(x4, x1), Add8(x3, b))) == b
    ensures Sum8(Add8(Add3(x4, x3, x2), Add3(x3, x2, x1)), Add3(x4, x2, x1), Add3(x3, x2, b), Add8(x3, b)) == 0
    ensures Sum8(Add3(x3, x2, x1), Add8(Add3(x4, x2, x1), Add3(x3, x1, b)), Add3(x4, x3, x1), Add8(x3, b)) == 0
    ensures Sum8(Add3(x3, x2, x1), Add3(x3, x1, b), Add8(Add3(x4, x3, x1), Add3(x3, x2, b)), Add8(x4, x1)) == 0
  {
    hide *;
    Cancelled1(b, x1, x2, x3, x4); Cancelled2(b, x1, x2, x3, x4); Cancelled3(b, x1, x2, x3, x4);
    Cancelled4(b, x1, x2, x3, x4);
  }

  lemma Cancels5(b: bv8, x1: bv8, x2: bv8, x3: bv8, x4: bv8, s1: bv8, s2: bv8, s3: bv8, s4: bv8)
    requires s1 == (x4 ^ x3 ^ x2) && s2 == (x4 ^ x1 ^ x3 ^ b) && s3 == (x3 ^ x2 ^ b) && s4 == (x3 ^ x1 ^ b)
    ensures s1 ^ s2 ^ s3 ^ s4 == b
  {}
  lemma Cancelled5(b: bv8, x1: bv8, x2: bv8, x3: bv8, x4: bv8)
    ensures Sum8(Add3(x4, x3, x2), Add8(Add8(x4, x1), Add8(x3, b)), Add3(x3, x2, b), Add3(x3, x1, b)) == b
  {
    hide *;
    Add3Is(x4, x3, x2); FourIs(x4, x1, x3, b); Add3Is(x3, x2, b); Add3Is(x3, x1, b);
    FourIs(Add3(x4, x3, x2), Add8(Add8(x4, x1), Add8(x3, b)), Add3(x3, x2, b), Add3(x3, x1, b));
    Cancels5(b, x1, x2, x3, x4, Add3(x4, x3, x2), Add8(Add8(x4, x1), Add8(x3, b)), Add3(x3, x2, b), Add3(x3, x1, b));
  }
  lemma Cancels6(b: bv8, x1: bv8, x2: bv8, x3: bv8, x4: bv8, s1: bv8, s2: bv8, s3: bv8, s4: bv8)
    requires s1 == (x4 ^ x2 ^ x1) && s2 == ((x4 ^ x3 ^ x2) ^ (x3 ^ x2 ^ x1)) && s3 == (x3 ^ b) && s4 == (x3 ^ x2 ^ b)
    ensures s1 ^ s2 ^ s3 ^ s4 == 0
  {}
  lemma Cancelled6(b: bv8, x1: bv8, x2: bv8, x3: bv8, x4: bv8)
    ensures Sum8(Add3(x4, x2, x1), Add8(Add3(x4, x3, x2), Add3(x3, x2, x1)), Add8(x3, b), Add3(x3, x2, b)) == 0
  {
    hide *;
    Add3Is(x4, x2, x1); SixIs(x4, x3, x2, x3, x2, x1); Add8Is(x3, b); Add3Is(x3, x2, b);
    FourIs(Add3(x4, x2, x1), Add8(Add3(x4, x3, x2), Add3(x3, x2, x1)), Add8(x3, b), Add3(x3, x2, b));
    Cancels6(b, x1, x2, x3, x4, Add3(x4, x2, x1), Add8(Add3(x4, x3, x2), Add3(x3, x2, x1)), Add8(x3, b),
      Add3(x3, x2, b));
  }
  lemma Cancels7(b: bv8, x1: bv8, x2: bv8, x3: bv8, x4: bv8, s1: bv8, s2: bv8, s3: bv8, s4: bv8)
    requires s1 == (x4 ^ x3 ^ x1) && s2 == ((x4 ^ x2 ^ x1) ^ (x3 ^ x1 ^ b)) && s3 == (x3 ^ x2 ^ x1) && s4 == (x3 ^ b)
    ensures s1 ^ s2 ^ s3 ^ s4 == 0
  {}
  lemma Cancelled7(b: bv8, x1: bv8, x2: bv8, x3: bv8, x4: bv8)
    ensures Sum8(Add3(x4, x3, x1), Add8(Add3(x4, x2, x1), Add3(x3, x1, b)), Add3(x3, x2, x1), Add8(x3, b)) == 0
  {
    hide *;
    Add3Is(x4, x3, x1); SixIs(x4, x2, x1, x3, x1, b); Add3Is(x3, x2, x1); Add8Is(x3, b);
    FourIs(Add3(x4, x3, x1), Add8(Add3(x4, x2, x1), Add3(x3, x1, b)), Add3(x3, x2, x1), Add8(x3, b));
    Cancels7(b, x1, x2, x3, x4, Add3(x4, x3, x1), Add8(Add3(x4, x2, x1), Add3(x3, x1, b)),
      Add3(x3, x2, x1), Add8(x3, b));
  }
  lemma Cancels8(b: bv8, x1: bv8, x2: bv8, x3: bv8, x4: bv8, s1: bv8, s2: bv8, s3: bv8, s4: bv8)
    requires s1 == (x4 ^ x1) && s2 == ((x4 ^ x3 ^ x1) ^ (x3 ^ x2 ^ b)) && s3 == (x3 ^ x1 ^ b) && s4 == (x3 ^ x2 ^ x1)
    ensures s1 ^ s2 ^ s3 ^ s4 == 0
  {}
  lemma Cancelled8(b: bv8, x1: bv8, x2: bv8, x3: bv8, x4: bv8)
    ensures Sum8(Add8(x4, x1), Add8(Add3(x4, x3, x1), Add3(x3, x2, b)), Add3(x3, x1, b), Add3(x3, x2, x1)) == 0
  {
    hide *;
    Add8Is(x4, x1); SixIs(x4, x3, x1, x3, x2, b); Add3Is(x3, x1, b); Add3Is(x3, x2, x1);
    FourIs(Add8(x4, x1), Add8(Add3(x4, x3, x1), Add3(x3, x2, b)), Add3(x3, x1, b), Add3(x3, x2, x1));
    Cancels8(b, x1, x2, x3, x4, Add8(x4, x1), Add8(Add3(x4, x3, x1), Add3(x3, x2, b)), Add3(x3, x1, b),
      Add3(x3, x2, x1));
  }

  /** And for the other order. */
  lemma SumsBack(b: bv8, x1: bv8, x2: bv8, x3: bv8, x4: bv8)
    ensures Sum8(Add3(x4, x3, x2), Add8(Add8(x4, x1), Add8(x3, b)), Add3(x3, x2, b), Add3(x3, x1, b)) == b
    ensures Sum8(Add3(x4, x2, x1), Add8(Add3(x4, x3, x2), Add3(x3, x2, x1)), Add8(x3, b), Add3(x3, x2, b)) == 0
    ensures Sum8(Add3(x4, x3, x1), Add8(Add3(x4, x2, x1), Add3(x3, x1, b)), Add3(x3, x2, x1), Add8(x3, b)) == 0
    ensures Sum8(Add8(x4, x1), Add8(Add3(x4, x3, x1), Add3(x3, x2, b)), Add3(x3, x1, b), Add3(x3, x2, x1)) == 0
  {
    hide *;
    Cancelled5(b, x1, x2, x3, x4); Cancelled6(b, x1, x2, x3, x4); Cancelled7(b, x1, x2, x3, x4);
    Cancelled8(b, x1, x2, x3, x4);
  }

  /** The product of the two matrices, entry by entry: InvMixColumns after MixColumns. */
  lemma MatricesInverse(b: bv8)
    ensures Sum8(GMul(GMul(b, 2), 14), GMul(b, 11), GMul(b, 13), GMul(GMul(b, 3), 9)) == b
    ensures Sum8(GMul(GMul(b, 3), 14), GMul(GMul(b, 2), 11), GMul(b, 13), GMul(b, 9)) == 0
    ensures Sum8(GMul(b, 14), GMul(GMul(b, 3), 11), GMul(GMul(b, 2), 13), GMul(b, 9)) == 0
    ensures Sum8(GMul(b, 14), GMul(b, 11), GMul(GMul(b, 3), 13), GMul(GMul(b, 2), 9)) == 0
  {
    hide *;
    var x1 := XTime(b);
    var x2 := XTime(x1);
    var x3 := XTime(x2);
    var x4 := XTime(x3);
    TimesTwice(b, x1, x2, x3, x4); Sums(b, x1, x2, x3, x4);
  }

  /** And MixColumns after InvMixColumns. */
  lemma MatricesInverseBack(b: bv8)
    ensures Sum8(GMul(GMul(b, 14), 2), GMul(GMul(b, 9), 3), GMul(b, 13), GMul(b, 11)) == b
    ensures Sum8(GMul(GMul(b, 11), 2), GMul(GMul(b, 14), 3), GMul(b, 9), GMul(b, 13)) == 0
    ensures Sum8(GMul(GMul(b, 13), 2), GMul(GMul(b, 11), 3), GMul(b, 14), GMul(b, 9)) == 0
    ensures Sum8(GMul(GMul(b, 9), 2), GMul(GMul(b, 13), 3), GMul(b, 11), GMul(b, 14)) == 0
  {
    hide *;
    var x1 := XTime(b);
    var x2 := XTime(x1);
    var x3 := XTime(x2);
    var x4 := XTime(x3);
    TimesTwice(b, x1, x2, x3, x4); TimesTwiceBack(b, x1, x2, x3, x4); SumsBack(b, x1, x2, x3, x4);
  }

  lemma OnlyFirst(a: bv8)
    ensures Sum8(a, 0, 0, 0) == a
  {}

  lemma InvMixRowOfMixRows(a: bv8, b: bv8, c: bv8, d: bv8)
    ensures InvMixRow(MixRow(a, b, c, d), MixRow(b, c, d, a), MixRow(c, d, a, b), MixRow(d, a, b, c)) == a
  {
    hide Sum8, GMul;
    GMulSum(GMul(a, 2), GMul(b, 3), c, d, 14); GMulSum(GMul(b, 2), GMul(c, 3), d, a, 11);
    GMulSum(GMul(c, 2), GMul(d, 3), a, b, 13); GMulSum(GMul(d, 2), GMul(a, 3), b, c, 9);
    Sum8Rotate(GMul(a, 11), GMul(GMul(b, 2), 11), GMul(GMul(c, 3), 11), GMul(d, 11));
    Sum8Rotate(GMul(a, 13), GMul(b, 13), GMul(GMul(c, 2), 13), GMul(GMul(d, 3), 13));
    Sum8Rotate(GMul(GMul(a, 3), 9), GMul(b, 9), GMul(c, 9), GMul(GMul(d, 2), 9));
    Sum8Transpose(GMul(GMul(a, 2), 14), GMul(a, 11), GMul(a, 13), GMul(GMul(a, 3), 9),
                  GMul(GMul(b, 3), 14), GMul(GMul(b, 2), 11), GMul(b, 13), GMul(b, 9),
                  GMul(c, 14), GMul(GMul(c, 3), 11), GMul(GMul(c, 2), 13), GMul(c, 9),
                  GMul(d, 14), GMul(d, 11), GMul(GMul(d, 3), 13), GMul(GMul(d, 2), 9));
    MatricesInverse(a); MatricesInverse(b); MatricesInverse(c); MatricesInverse(d);
    OnlyFirst(a);
  }

  lemma MixRowOfInvMixRows(a: bv8, b: bv8, c: bv8, d: bv8)
    ensures MixRow(InvMixRow(a, b, c, d), InvMixRow(b, c, d, a), InvMixRow(c, d, a, b), InvMixRow(d, a, b, c)) == a
  {
    hide Sum8, GMul;
    GMulSum(GMul(a, 14), GMul(b, 11), GMul(c, 13), GMul(d, 9), 2);
    GMulSum(GMul(b, 14), GMul(c, 11), GMul(d, 13), GMul(a, 9), 3);
    Sum8Rotate(GMul(GMul(a, 9), 3), GMul(GMul(b, 14), 3), GMul(GMul(c, 11), 3), GMul(GMul(d, 13), 3));
    Sum8Rotate(GMul(a, 13), GMul(b, 9), GMul(c, 14), GMul(d, 11));
    Sum8Rotate(GMul(a, 11), GMul(b, 13), GMul(c, 9), GMul(d, 14));
    Sum8Transpose(GMul(GMul(a, 14), 2), GMul(GMul(a, 9), 3), GMul(a, 13), GMul(a, 11),
                  GMul(GMul(b, 11), 2), GMul(GMul(b, 14), 3), GMul(b, 9), GMul(b, 13),
                  GMul(GMul(c, 13), 2), GMul(GMul(c, 11), 3), GMul(c, 14), GMul(c, 9),
                  GMul(GMul(d, 9), 2), GMul(GMul(d, 13), 3), GMul(d, 11), GMul(d, 14));
    MatricesInverseBack(a); MatricesInverseBack(b); MatricesInverseBack(c); MatricesInverseBack(d);
    OnlyFirst(a);
  }

  /** InvMixColumns undoes MixColumns, and the other way around. */
  lemma MixColumnInverse(w: bv32)
    ensures InvMixColumn(MixColumn(w)) == w && MixColumn(InvMixColumn(w)) == w
  {
    hide Byte0, Byte1, Byte2, Byte3, FromBytes, MixRow, InvMixRow;
    var a, b, c, d := Byte0(w), Byte1(w), Byte2(w), Byte3(w);
    BytesOfWord(w);
    WordOfBytes(MixRow(a, b, c, d), MixRow(b, c, d, a), MixRow(c, d, a, b), MixRow(d, a, b, c));
    WordOfBytes(InvMixRow(a, b, c, d), InvMixRow(b, c, d, a), InvMixRow(c, d, a, b), InvMixRow(d, a, b, c));
    InvMixRowOfMixRows(a, b, c, d); InvMixRowOfMixRows(b, c, d, a); InvMixRowOfMixRows(c, d, a, b);
    InvMixRowOfMixRows(d, a, b, c);
    MixRowOfInvMixRows(a, b, c, d); MixRowOfInvMixRows(b, c, d, a); MixRowOfInvMixRows(c, d, a, b);
    MixRowOfInvMixRows(d, a, b, c);
  }

  lemma Add32Byte0(v: bv32, w: bv32)
    ensures Byte0(Add32(v, w)) == Add8(Byte0(v), Byte0(w))
  {}
  lemma Add32Byte1(v: bv32, w: bv32)
    ensures Byte1(Add32(v, w)) == Add8(Byte1(v), Byte1(w))
  {}
  lemma Add32Byte2(v: bv32, w: bv32)
    ensures Byte2(Add32(v, w)) == Add8(Byte2(v), Byte2(w))
  {}
  lemma Add32Byte3(v: bv32, w: bv32)
    ensures Byte3(Add32(v, w)) == Add8(Byte3(v), Byte3(w))
  {}

  lemma FromBytesAdd(a: bv8, b: bv8, c: bv8, d: bv8, a': bv8, b': bv8, c': bv8, d': bv8)
    ensures Add32(FromBytes(a, b, c, d), FromBytes(a', b', c', d'))
      == FromBytes(Add8(a, a'), Add8(b, b'), Add8(c, c'), Add8(d, d'))
  {
    hide *;
    var v, w := FromBytes(a, b, c, d), FromBytes(a', b', c', d');
    BytesOfWord(Add32(v, w)); Add32Byte0(v, w); Add32Byte1(v, w); Add32Byte2(v, w); Add32Byte3(v, w);
    WordOfBytes(a, b, c, d); WordOfBytes(a', b', c', d');
  }

  lemma InvMixRowLinear(a: bv8, b: bv8, c: bv8, d: bv8, a': bv8, b': bv8, c': bv8, d': bv8)
    ensures InvMixRow(Add8(a, a'), Add8(b, b'), Add8(c, c'), Add8(d, d'))
      == Add8(InvMixRow(a, b, c, d), InvMixRow(a', b', c', d'))
  {
    hide Sum8, Add8, GMul;
    GMulLinear(a, a', 14); GMulLinear(b, b', 11); GMulLinear(c, c', 13); GMulLinear(d, d', 9);
    Sum8Add(GMul(a, 14), GMul(b, 11), GMul(c, 13), GMul(d, 9), GMul(a', 14), GMul(b', 11), GMul(c', 13), GMul(d', 9));
  }

  lemma InvMixColumnLinear(v: bv32, w: bv32)
    ensures InvMixColumn(Add32(v, w)) == Add32(InvMixColumn(v), InvMixColumn(w))
  {
    hide Byte0, Byte1, Byte2, Byte3, FromBytes, InvMixRow, Add8, Add32;
    var a, b, c, d := Byte0(v), Byte1(v), Byte2(v), Byte3(v);
    var a', b', c', d' := Byte0(w), Byte1(w), Byte2(w), Byte3(w);
    Add32Byte0(v, w); Add32Byte1(v, w); Add32Byte2(v, w); Add32Byte3(v, w);
    InvMixRowLinear(a, b, c, d, a', b', c', d'); InvMixRowLinear(b, c, d, a, b', c', d', a');
    InvMixRowLinear(c, d, a, b, c', d', a', b'); InvMixRowLinear(d, a, b, c, d', a', b', c');
    FromBytesAdd(InvMixRow(a, b, c, d), InvMixRow(b, c, d, a), InvMixRow(c, d, a, b), InvMixRow(d, a, b, c),
                 InvMixRow(a', b', c', d'), InvMixRow(b', c', d', a'), InvMixRow(c', d', a', b'),
                 InvMixRow(d', a', b', c'));
  }
}
