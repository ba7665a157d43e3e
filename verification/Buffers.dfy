/** Bounded byte buffers with big-endian integers, and reads of them that fail outside their bounds. */
module Buffers {

  type Octet = x: int | 0 <= x < 256
  type U16 = x: int | 0 <= x < 0x1_0000
  type U32 = x: int | 0 <= x < 0x1_0000_0000
  type U40 = x: int | 0 <= x < 0x100_0000_0000
  type U64 = x: int | 0 <= x < 0x1_0000_0000_0000_0000

  type Bytes = seq<Octet>

  /** What reading and writing throw. */
  datatype Error = OutOfBounds | Overflow | InvalidType | BadEncoding | InvalidToken

  datatype Result<+T> = Ok(value: T) | Err(error: Error) {
    predicate IsFailure() { Err? }
    function PropagateFailure<U>(): Result<U>
      requires Err?
    {
      Err(error)
    }
    function Extract(): T
      requires Ok?
    {
      value
    }
  }

  datatype Outcome = Done | Thrown(error: Error) {
    predicate IsFailure() { Thrown? }
    function PropagateFailure(): Outcome { this }
  }

  // ---- big-endian integers ----

  /** The number of values of n bytes. */
  function Values(n: nat): (r: nat)
    ensures r > 0
  {
    if n == 0 then 1 else 256 * Values(n - 1)
  }

  function Put(v: nat, n: nat): (b: Bytes)
    ensures |b| == n
  {
    if n == 0 then [] else Put(v / 256, n - 1) + [v % 256]
  }

  function Take(b: Bytes): (v: nat) {
    if b == [] then 0 else 256 * Take(b[..|b| - 1]) + b[|b| - 1]
  }

  lemma {:induction false} TakePut(v: nat, n: nat)
    requires v < Values(n)
    ensures Take(Put(v, n)) == v
  {
    if n > 0 {
      TakePut(v / 256, n - 1);
      assert Put(v, n)[..n - 1] == Put(v / 256, n - 1);
    }
  }

  lemma {:induction false} PutTake(b: Bytes)
    ensures Take(b) < Values(|b|) && Put(Take(b), |b|) == b
  {
    if b != [] {
      PutTake(b[..|b| - 1]);
    }
  }

  lemma Widths()
    ensures Values(1) == 256 && Values(2) == 0x1_0000 && Values(4) == 0x1_0000_0000
    ensures Values(5) == 0x100_0000_0000 && Values(8) == 0x1_0000_0000_0000_0000
  {
    assert Values(3) == 0x100_0000;
    assert Values(6) == 0x1_0000_0000_0000;
    assert Values(7) == 0x100_0000_0000_0000;
  }

  // ---- reads ----

  function ByteAt(d: Bytes, p: nat): Result<Octet> {
    if p >= |d| then Err(OutOfBounds) else Ok(d[p])
  }

  function Field(d: Bytes, p: nat, n: nat): (r: Result<Bytes>)
    ensures r.Ok? ==> |r.value| == n
  {
    if p + n > |d| then Err(OutOfBounds) else Ok(d[p..p + n])
  }

  function At(d: Bytes, p: nat, n: nat): (r: Result<nat>)
    ensures r.Ok? ==> p + n <= |d| && r.value < Values(n)
  {
    if p + n > |d| then Err(OutOfBounds) else PutTake(d[p..p + n]); Ok(Take(d[p..p + n]))
  }

  function At16(d: Bytes, p: nat): Result<U16> {
    Widths();
    var v :- At(d, p, 2); Ok(v)
  }

  function At32(d: Bytes, p: nat): Result<U32> {
    Widths();
    var v :- At(d, p, 4); Ok(v)
  }

  function At64(d: Bytes, p: nat): Result<U64> {
    Widths();
    var v :- At(d, p, 8); Ok(v)
  }

  /** An address: five bytes. */
  function AddressAt(d: Bytes, p: nat): Result<U40> {
    Widths();
    var v :- At(d, p, 5); Ok(v)
  }

  /** The bytes x stand in d at p. */
  ghost predicate Holds(d: Bytes, p: nat, x: Bytes) {
    p + |x| <= |d| && d[p..p + |x|] == x
  }

  lemma HoldsBoth(d: Bytes, p: nat, x: Bytes, y: Bytes)
    ensures Holds(d, p, x + y) <==> Holds(d, p, x) && Holds(d, p + |x|, y)
  {
    if p + |x| + |y| <= |d| {
      assert d[p..p + |x| + |y|] == d[p..p + |x|] + d[p + |x|..p + |x| + |y|];
      assert (x + y)[..|x|] == x && (x + y)[|x|..] == y;
      assert (d[p..p + |x| + |y|])[..|x|] == d[p..p + |x|];
      assert (d[p..p + |x| + |y|])[|x|..] == d[p + |x|..p + |x| + |y|];
    }
  }

  lemma HoldsWithin(pre: Bytes, x: Bytes, rest: Bytes)
    ensures Holds(pre + x + rest, |pre|, x) && Holds(pre + x, |pre|, x)
  {}

  lemma HoldsSome(d: Bytes, p: nat, x: Bytes)
    requires x != [] && Holds(d, p, x)
    ensures p < |d|
  {}

  lemma {:induction false} HoldsInt(d: Bytes, p: nat, v: nat, n: nat)
    requires v < Values(n) && Holds(d, p, Put(v, n))
    ensures At(d, p, n) == Ok(v)
  {
    TakePut(v, n);
  }

  /** Reading an integer at the head of what stands at p leaves the rest standing behind it. */
  lemma Next16(d: Bytes, p: nat, v: U16, rest: Bytes)
    requires Holds(d, p, Put(v, 2) + rest)
    ensures At16(d, p) == Ok(v) && Holds(d, p + 2, rest)
  {
    hide Holds, Put;
    Widths(); HoldsBoth(d, p, Put(v, 2), rest); HoldsInt(d, p, v, 2);
  }

  lemma Next32(d: Bytes, p: nat, v: U32, rest: Bytes)
    requires Holds(d, p, Put(v, 4) + rest)
    ensures At32(d, p) == Ok(v) && Holds(d, p + 4, rest)
  {
    hide Holds, Put;
    Widths(); HoldsBoth(d, p, Put(v, 4), rest); HoldsInt(d, p, v, 4);
  }

  lemma NextAddress(d: Bytes, p: nat, v: U40, rest: Bytes)
    requires Holds(d, p, Put(v, 5) + rest)
    ensures AddressAt(d, p) == Ok(v) && Holds(d, p + 5, rest)
  {
    hide Holds, Put;
    Widths(); HoldsBoth(d, p, Put(v, 5), rest); HoldsInt(d, p, v, 5);
  }

  lemma Next64(d: Bytes, p: nat, v: U64, rest: Bytes)
    requires Holds(d, p, Put(v, 8) + rest)
    ensures At64(d, p) == Ok(v) && Holds(d, p + 8, rest)
  {
    hide Holds, Put;
    Widths(); HoldsBoth(d, p, Put(v, 8), rest); HoldsInt(d, p, v, 8);
  }

  lemma NextByte(d: Bytes, p: nat, v: Octet, rest: Bytes)
    requires Holds(d, p, [v] + rest)
    ensures ByteAt(d, p) == Ok(v) && Holds(d, p + 1, rest)
  {
    HoldsBoth(d, p, [v], rest);
    assert d[p..p + 1][0] == v;
  }

  lemma NextField(d: Bytes, p: nat, x: Bytes, rest: Bytes)
    requires Holds(d, p, x + rest)
    ensures Field(d, p, |x|) == Ok(x) && Holds(d, p + |x|, rest)
  {
    HoldsBoth(d, p, x, rest);
  }

  /** Appending parts one by one. */
  lemma ThreeParts(s: Bytes, a: Bytes, b: Bytes, c: Bytes)
    ensures s + a + b + c == s + (a + (b + c))
  {}

  lemma FourParts(s: Bytes, a: Bytes, b: Bytes, c: Bytes, d: Bytes)
    ensures s + a + b + c + d == s + (a + (b + (c + d)))
  {
    ThreeParts(s + a, b, c, d);
    ThreeParts(s, a, b, c + d);
  }

  lemma FiveParts(s: Bytes, a: Bytes, b: Bytes, c: Bytes, d: Bytes, e: Bytes)
    ensures s + a + b + c + d + e == s + (a + (b + (c + (d + e))))
  {
    FourParts(s + a, b, c, d, e);
    ThreeParts(s, a, b, c + (d + e));
  }

  // ---- writes ----

  class Buffer {
    const capacity: nat
    var bytes: Bytes

    ghost predicate Valid()
      reads this
    {
      |bytes| <= capacity
    }

    constructor (capacity: nat)
      ensures Valid() && bytes == [] && this.capacity == capacity
    {
      this.capacity := capacity;
      bytes := [];
    }

    method Append(x: Bytes) returns (r: Outcome)
      requires Valid()
      modifies this
      ensures Valid()
      ensures r == if |old(bytes)| + |x| > capacity then Thrown(OutOfBounds) else Done
      ensures bytes == if r.Done? then old(bytes) + x else old(bytes)
    {
      if |bytes| + |x| > capacity {
        return Thrown(OutOfBounds);
      }
      bytes := bytes + x;
      return Done;
    }

    /** n more bytes, of whatever value. */
    method AddSize(n: nat) returns (r: Outcome)
      requires Valid()
      modifies this
      ensures Valid()
      ensures r == if |old(bytes)| + n > capacity then Thrown(OutOfBounds) else Done
      ensures r.Done? ==> |bytes| == |old(bytes)| + n && bytes[..|old(bytes)|] == old(bytes)
    {
      if |bytes| + n > capacity {
        return Thrown(OutOfBounds);
      }
      bytes := bytes + seq(n, _ => 0);
      return Done;
    }

    method SetAt(i: nat, v: nat, n: nat) returns (r: Outcome)
      requires Valid()
      modifies this
      ensures Valid() && |bytes| == |old(bytes)|
      ensures r == if i + n > |old(bytes)| then Thrown(OutOfBounds) else Done
      ensures r.Done? ==> bytes == old(bytes)[..i] + Put(v, n) + old(bytes)[i + n..]
    {
      if i + n > |bytes| {
        return Thrown(OutOfBounds);
      }
      bytes := bytes[..i] + Put(v, n) + bytes[i + n..];
      return Done;
    }
  }
}
