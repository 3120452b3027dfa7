/** Byte strings and the few sequence operations that every other module speaks in. */
module Bytes {

  type byte = b: int | 0 <= b < 256

  datatype Option<+T> = None | Some(value: T)

  /** The last `n` elements of `s`, or all of it when it is shorter. */
  function Last<T>(s: seq<T>, n: nat): (r: seq<T>)
    ensures |r| == if |s| <= n then |s| else n
    ensures s == s[..|s| - |r|] + r
  {
    if |s| <= n then s else s[|s| - n..]
  }

  lemma LastIgnoresPrefix<T>(x: seq<T>, y: seq<T>, n: nat)
    requires |y| >= n
    ensures Last(x + y, n) == Last(y, n)
  {
    var s := x + y;
    if |s| > n {
      assert s[|s| - n..] == y[|y| - n..];
    } else {
      assert s == y;
    }
  }

  lemma LastOfLast<T>(s: seq<T>, p: seq<T>, n: nat)
    ensures Last(Last(s, n) + p, n) == Last(s + p, n)
  {
    if |s| > n {
      var dropped, kept := s[..|s| - n], s[|s| - n..];
      assert s == dropped + kept;
      Associative(dropped, kept, p);
      LastIgnoresPrefix(dropped, kept + p, n);
    }
  }

  lemma Associative<T>(a: seq<T>, b: seq<T>, c: seq<T>)
    ensures (a + b) + c == a + (b + c)
  {
  }

  /** Carrying `held` over into the next piece loses nothing. */
  lemma Rejoin<T>(a: seq<T>, b: seq<T>, front: seq<T>, held: seq<T>, middle: seq<T>, rest: seq<T>)
    requires a == front + held && held + b == middle + rest
    ensures a + b == (front + middle) + rest
  {
    Associative(front, held, b);
    Associative(front, middle, rest);
  }

  /** Moving `x` from what is left to what is done. */
  lemma Absorb<T>(total: seq<T>, done: seq<T>, x: seq<T>, left: seq<T>)
    requires total == done + (x + left)
    ensures total == (done + x) + left
  {
    Associative(done, x, left);
  }

  /** A whole stream, given as the chunks it arrived in. */
  function Concat<T>(chunks: seq<seq<T>>): seq<T> {
    if chunks == [] then [] else chunks[0] + Concat(chunks[1..])
  }

  lemma ConcatSplit<T>(a: seq<seq<T>>, b: seq<seq<T>>)
    ensures Concat(a + b) == Concat(a) + Concat(b)
  {
    if a == [] {
      assert a + b == b;
    } else {
      assert (a + b)[1..] == a[1..] + b;
      ConcatSplit(a[1..], b);
      assert a[0] + (Concat(a[1..]) + Concat(b)) == a[0] + Concat(a[1..]) + Concat(b);
    }
  }

  lemma ConcatSnoc<T>(a: seq<seq<T>>, c: seq<T>)
    ensures Concat(a + [c]) == Concat(a) + c
  {
    ConcatSplit(a, [c]);
    assert Concat([c]) == c + Concat<T>([]) == c;
  }

  predicate EndsWith<T(==)>(s: seq<T>, p: seq<T>) {
    |p| <= |s| && s[|s| - |p|..] == p
  }

  /** `p` stands in `s` at offset `i`. */
  predicate At<T(==)>(s: seq<T>, p: seq<T>, i: int) {
    0 <= i <= |s| - |p| && s[i..i + |p|] == p
  }
}
