/** Lists of encoded items. */
module Lists {
  import opened Buffers

  function All<T>(xs: seq<T>, put: T -> Bytes): Bytes {
    if xs == [] then [] else put(xs[0]) + All(xs[1..], put)
  }

  lemma {:induction false} AllJoined<T>(xs: seq<T>, ys: seq<T>, put: T -> Bytes)
    ensures All(xs + ys, put) == All(xs, put) + All(ys, put)
  {
    if xs == [] {
      assert xs + ys == ys;
    } else {
      AllJoined(xs[1..], ys, put);
      assert (xs + ys)[1..] == xs[1..] + ys;
      assert put(xs[0]) + All(xs[1..], put) + All(ys, put) == put(xs[0]) + (All(xs[1..], put) + All(ys, put));
    }
  }

  /** One more item, and what is still to come. */
  lemma AllNext<T>(xs: seq<T>, i: nat, put: T -> Bytes)
    requires i < |xs|
    ensures All(xs[..i + 1], put) == All(xs[..i], put) + put(xs[i])
    ensures |All(xs, put)| >= |All(xs[..i], put)| + |put(xs[i])|
  {
    assert xs[..i + 1] == xs[..i] + [xs[i]];
    assert All([xs[i]], put) == put(xs[i]) by {
      assert All([xs[i]], put) == put(xs[i]) + All([xs[i]][1..], put);
      assert [xs[i]][1..] == [];
    }
    AllJoined(xs[..i], [xs[i]], put);
    assert xs == xs[..i + 1] + xs[i + 1..];
    AllJoined(xs[..i + 1], xs[i + 1..], put);
  }

  lemma {:induction false} AllLength<T>(xs: seq<T>, put: T -> Bytes, most: nat)
    requires forall x | x in xs :: |put(x)| <= most
    ensures |All(xs, put)| <= |xs| * most
  {
    if xs != [] {
      AllLength(xs[1..], put, most);
      assert |xs| * most == |xs[1..]| * most + most;
    }
  }

  /** Reads n items one after the other; the result is followed by the position after them. */
  function ReadAll<T>(d: Bytes, p: nat, n: nat, read: (Bytes, nat) -> Result<(T, nat)>): Result<(seq<T>, nat)>
    decreases n
  {
    if n == 0 then Ok(([], p)) else
      var first :- read(d, p);
      var others :- ReadAll(d, first.1, n - 1, read);
      Ok(([first.0] + others.0, others.1))
  }

  /** Read undoes put, up to what put leaves out, wherever the bytes stand. */
  ghost predicate Undoes<T(!new), U(!new)>(x: T, put: T -> Bytes, read: (Bytes, nat) -> Result<(U, nat)>,
                                           wire: T -> U) {
    forall d: Bytes, p: nat | Holds(d, p, put(x)) :: read(d, p) == Ok((wire(x), p + |put(x)|))
  }

  function Map<T, U>(xs: seq<T>, wire: T -> U): (r: seq<U>)
    ensures |r| == |xs| && forall i | 0 <= i < |xs| :: r[i] == wire(xs[i])
  {
    if xs == [] then [] else [wire(xs[0])] + Map(xs[1..], wire)
  }

  lemma {:induction false} ReadAllUndoes<T(!new), U(!new)>(
    d: Bytes, p: nat, xs: seq<T>, put: T -> Bytes, read: (Bytes, nat) -> Result<(U, nat)>, wire: T -> U)
    requires Holds(d, p, All(xs, put)) && forall x | x in xs :: Undoes(x, put, read, wire)
    ensures ReadAll(d, p, |xs|, read) == Ok((Map(xs, wire), p + |All(xs, put)|))
    decreases |xs|
  {
    if xs != [] {
      HoldsBoth(d, p, put(xs[0]), All(xs[1..], put));
      assert Undoes(xs[0], put, read, wire);
      assert read(d, p) == Ok((wire(xs[0]), p + |put(xs[0])|));
      ReadAllUndoes(d, p + |put(xs[0])|, xs[1..], put, read, wire);
    }
  }

  /** Reading one more item at the end. */
  lemma {:induction false} ReadAllNext<T>(d: Bytes, p: nat, n: nat, read: (Bytes, nat) -> Result<(T, nat)>)
    ensures ReadAll(d, p, n + 1, read) == match ReadAll(d, p, n, read) {
      case Err(e) => Err(e)
      case Ok(s) => match read(d, s.1) {
        case Err(e) => Err(e)
        case Ok(x) => Ok((s.0 + [x.0], x.1))
      }
    }
    decreases n
  {
    if n == 0 {
      if read(d, p).Ok? {
        var first := read(d, p).value;
        assert ReadAll(d, first.1, 0, read) == Ok(([], first.1));
        assert [first.0] + [] == [] + [first.0];
        assert ReadAll(d, p, 1, read) == Ok(([first.0] + [], first.1));
      }
    } else if read(d, p).Ok? {
      var first := read(d, p).value;
      ReadAllNext(d, first.1, n - 1, read);
      if ReadAll(d, first.1, n, read).Ok? {
        var s, x := ReadAll(d, first.1, n - 1, read).value, read(d, ReadAll(d, first.1, n - 1, read).value.1).value;
        assert [first.0] + (s.0 + [x.0]) == [first.0] + s.0 + [x.0];
      }
    }
  }

  /** A failure of a shorter list is the failure of a longer one. */
  lemma {:induction false} ReadAllFails<T>(d: Bytes, p: nat, n: nat, m: nat, read: (Bytes, nat) -> Result<(T, nat)>)
    requires n <= m && ReadAll(d, p, n, read).Err?
    ensures ReadAll(d, p, m, read) == Err(ReadAll(d, p, n, read).error)
    decreases n
  {
    if n > 0 && read(d, p).Ok? {
      ReadAllFails(d, read(d, p).value.1, n - 1, m - 1, read);
    }
  }
}
