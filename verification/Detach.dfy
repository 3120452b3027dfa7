/** The detach sequence of an interactive attach (cmd/pupptyeer/ctl.go, detachMatcher). */
module Detach {
  import opened Bytes

  /**
   How many bytes of `keys` are held after `b` arrives when `m` were held before: on a mismatch only `b` itself is
   tried again.
   */
  function Next(keys: seq<byte>, m: nat, b: byte): (n: nat)
    requires m < |keys|
    ensures n <= m + 1
  {
    if b == keys[m] then m + 1
    else if b == keys[0] then 1
    else 0
  }

  /** How many bytes are held once `s` has been read; all of them from the moment the sequence completes. */
  function HeldAfter(keys: seq<byte>, s: seq<byte>): (m: nat)
    requires keys != []
    ensures m <= |keys|
  {
    if s == [] then 0
    else
      var m := HeldAfter(keys, s[..|s| - 1]);
      if m == |keys| then m else Next(keys, m, s[|s| - 1])
  }

  lemma HeldAfterByte(keys: seq<byte>, s: seq<byte>, b: byte)
    requires keys != []
    ensures HeldAfter(keys, s + [b]) ==
            if HeldAfter(keys, s) == |keys| then |keys| else Next(keys, HeldAfter(keys, s), b)
  {
    assert (s + [b])[..|s|] == s;
  }

  /** The matcher has let go by the end of `s`. */
  predicate Detached(keys: seq<byte>, s: seq<byte>)
    requires keys != []
  {
    HeldAfter(keys, s) == |keys|
  }

  /** The sequence stands somewhere in `s`. */
  ghost predicate Typed(keys: seq<byte>, s: seq<byte>) {
    exists e :: 0 <= e <= |s| && EndsWith(s[..e], keys)
  }

  /** On every stream the matcher lets go as soon as the sequence has been typed, and not before. */
  ghost predicate Exact(keys: seq<byte>)
    requires keys != []
  {
    forall s :: Detached(keys, s) <==> Typed(keys, s)
  }

  /**
   The first `j - 1` keys end the first `k` keys too, and go on differently: what makes restarting at the
   mismatching byte too late.
   */
  predicate Diverges(keys: seq<byte>, k: nat, j: nat) {
    && 2 <= j <= k < |keys|
    && EndsWith(keys[..k], keys[..j - 1])
    && keys[j - 1] != keys[k]
  }

  ghost predicate SomeDivergence(keys: seq<byte>) {
    exists k: nat, j: nat :: Diverges(keys, k, j)
  }

  lemma TypedByte(keys: seq<byte>, s: seq<byte>, b: byte)
    requires keys != []
    ensures Typed(keys, s + [b]) <==> Typed(keys, s) || EndsWith(s + [b], keys)
  {
    var t := s + [b];
    assert t[..|t|] == t;
    if e :| 0 <= e <= |t| && EndsWith(t[..e], keys) {
      assert e < |t| ==> t[..e] == s[..e];
    }
    if e :| 0 <= e <= |s| && EndsWith(s[..e], keys) {
      assert t[..e] == s[..e];
    }
  }

  lemma EndsWithByte(s: seq<byte>, b: byte, p: seq<byte>)
    ensures p != [] ==> (EndsWith(s + [b], p) <==> EndsWith(s, p[..|p| - 1]) && b == p[|p| - 1])
  {
    if p != [] {
      var t, q := s + [b], p[..|p| - 1];
      assert p == q + [p[|p| - 1]];
      if |p| <= |t| {
        assert t[|t| - |p|..] == s[|s| - |q|..] + [b];
      }
    }
  }

  lemma EndsWithShorter(s: seq<byte>, p: seq<byte>, q: seq<byte>)
    requires EndsWith(s, p) && EndsWith(s, q) && |q| <= |p|
    ensures EndsWith(p, q)
  {
    assert p[|p| - |q|..] == s[|s| - |q|..];
  }

  /** What is held has just been typed. */
  lemma {:induction false} HeldIsTyped(keys: seq<byte>, s: seq<byte>)
    requires keys != [] && !Detached(keys, s)
    ensures EndsWith(s, keys[..HeldAfter(keys, s)])
  {
    if s != [] {
      var t, b := s[..|s| - 1], s[|s| - 1];
      assert s == t + [b];
      HeldAfterByte(keys, t, b);
      HeldIsTyped(keys, t);
      HeldStep(keys, t, b);
    }
  }

  lemma HeldStep(keys: seq<byte>, t: seq<byte>, b: byte)
    requires keys != [] && !Detached(keys, t)
    requires EndsWith(t, keys[..HeldAfter(keys, t)])
    ensures EndsWith(t + [b], keys[..Next(keys, HeldAfter(keys, t), b)])
  {
    var m := HeldAfter(keys, t);
    var n := Next(keys, m, b);
    EndsWithByte(t, b, keys[..n]);
    if n > 0 {
      assert keys[..n][..n - 1] == keys[..n - 1];
      assert EndsWith(t, []);
    }
  }

  /** The matcher never lets go without the sequence having been typed. */
  lemma {:induction false} DetachIsTyped(keys: seq<byte>, s: seq<byte>)
    requires keys != [] && Detached(keys, s)
    ensures Typed(keys, s)
  {
    var t, b := s[..|s| - 1], s[|s| - 1];
    assert s == t + [b];
    TypedByte(keys, t, b);
    HeldAfterByte(keys, t, b);
    if Detached(keys, t) {
      DetachIsTyped(keys, t);
    } else {
      HeldIsTyped(keys, t);
      HeldStep(keys, t, b);
      assert keys[..|keys|] == keys;
    }
  }

  /** No longer beginning of the sequence has just been typed than the one that is held. */
  ghost predicate HoldsLongest(keys: seq<byte>, s: seq<byte>)
    requires keys != []
  {
    forall j :: HeldAfter(keys, s) < j <= |keys| ==> !EndsWith(s, keys[..j])
  }

  lemma LongestStep(keys: seq<byte>, t: seq<byte>, b: byte)
    requires keys != [] && !SomeDivergence(keys)
    requires !Detached(keys, t) && HoldsLongest(keys, t)
    ensures HoldsLongest(keys, t + [b])
  {
    var m := HeldAfter(keys, t);
    HeldAfterByte(keys, t, b);
    HeldIsTyped(keys, t);
    forall j | HeldAfter(keys, t + [b]) < j <= |keys|
      ensures !EndsWith(t + [b], keys[..j])
    {
      assert keys[..j][..j - 1] == keys[..j - 1];
      EndsWithByte(t, b, keys[..j]);
      if EndsWith(t + [b], keys[..j]) {
        LongerMatchDiverges(keys, t, b, j);
      }
    }
  }

  /** If a longer beginning does match after all, the sequence has a divergence. */
  lemma LongerMatchDiverges(keys: seq<byte>, t: seq<byte>, b: byte, j: nat)
    requires keys != [] && !Detached(keys, t) && HoldsLongest(keys, t)
    requires EndsWith(t, keys[..HeldAfter(keys, t)])
    requires Next(keys, HeldAfter(keys, t), b) < j <= |keys|
    requires EndsWith(t, keys[..j - 1]) && b == keys[j - 1]
    ensures Diverges(keys, HeldAfter(keys, t), j)
  {
    var m := HeldAfter(keys, t);
    assert j - 1 <= m;
    EndsWithShorter(t, keys[..m], keys[..j - 1]);
  }

  lemma {:induction false} NeverMisses(keys: seq<byte>, s: seq<byte>)
    requires keys != [] && !SomeDivergence(keys) && !Detached(keys, s)
    ensures !Typed(keys, s) && HoldsLongest(keys, s)
  {
    if s != [] {
      var t, b := s[..|s| - 1], s[|s| - 1];
      assert s == t + [b];
      HeldAfterByte(keys, t, b);
      NeverMisses(keys, t);
      TypedByte(keys, t, b);
      LongestStep(keys, t, b);
    }
    assert keys[..|keys|] == keys;
  }

  lemma {:induction false} PrefixIsHeld(keys: seq<byte>, k: nat)
    requires k < |keys|
    ensures HeldAfter(keys, keys[..k]) == k
  {
    if k > 0 {
      PrefixIsHeld(keys, k - 1);
      assert keys[..k] == keys[..k - 1] + [keys[k - 1]];
      HeldAfterByte(keys, keys[..k - 1], keys[k - 1]);
    }
  }

  /** One byte adds at most one held byte. */
  lemma {:induction false} SlowGrowth(keys: seq<byte>, s: seq<byte>, more: seq<byte>)
    requires keys != [] && HeldAfter(keys, s) + |more| < |keys|
    ensures HeldAfter(keys, s + more) <= HeldAfter(keys, s) + |more|
  {
    if more == [] {
      assert s + more == s;
    } else {
      var front, b := more[..|more| - 1], more[|more| - 1];
      SlowGrowth(keys, s, front);
      assert s + more == (s + front) + [b];
      HeldAfterByte(keys, s + front, b);
    }
  }

  /** Up to `k` keys, then the sequence again from its `j`-th key. */
  function Retyped(keys: seq<byte>, k: nat, j: nat): seq<byte>
    requires 1 <= j && j - 1 <= k <= |keys|
  {
    keys[..k] + keys[j - 1..]
  }

  lemma RetypedIsTyped(keys: seq<byte>, k: nat, j: nat)
    requires Diverges(keys, k, j)
    ensures Typed(keys, Retyped(keys, k, j))
  {
    var head, tail := keys[..k], keys[j - 1..];
    var s := Retyped(keys, k, j);
    assert keys == keys[..j - 1] + tail;
    assert head == head[..k - (j - 1)] + keys[..j - 1];
    assert s == head[..k - (j - 1)] + keys;
    assert s[..|s|] == s;
  }

  lemma RetypedIsMissed(keys: seq<byte>, k: nat, j: nat)
    requires Diverges(keys, k, j)
    ensures !Detached(keys, Retyped(keys, k, j))
  {
    PrefixIsHeld(keys, k);
    var t := keys[..k] + [keys[j - 1]];
    HeldAfterByte(keys, keys[..k], keys[j - 1]);
    assert Retyped(keys, k, j) == t + keys[j..];
    SlowGrowth(keys, t, keys[j..]);
  }

  /** Exactly the sequences without a divergence are matched exactly. */
  lemma ExactIffNoDivergence(keys: seq<byte>)
    requires keys != []
    ensures Exact(keys) <==> !SomeDivergence(keys)
  {
    if SomeDivergence(keys) {
      var k: nat, j: nat :| Diverges(keys, k, j);
      RetypedIsTyped(keys, k, j);
      RetypedIsMissed(keys, k, j);
    } else {
      forall s
        ensures Detached(keys, s) <==> Typed(keys, s)
      {
        if Detached(keys, s) {
          DetachIsTyped(keys, s);
        } else {
          NeverMisses(keys, s);
        }
      }
    }
  }

  /** A key, or a prefix and a key, equal or not: always exact. */
  lemma TwoKeysAreExact(keys: seq<byte>)
    requires 1 <= |keys| <= 2
    ensures Exact(keys)
  {
    ExactIffNoDivergence(keys);
  }

  /** Three keys are exact unless the first is repeated and then followed by another. */
  lemma ThreeKeys(keys: seq<byte>)
    requires |keys| == 3
    ensures Exact(keys) <==> !(keys[0] == keys[1] != keys[2])
  {
    ExactIffNoDivergence(keys);
    if keys[0] == keys[1] != keys[2] {
      assert Diverges(keys, 2, 2);
    }
    if k: nat, j: nat :| Diverges(keys, k, j) {
      assert keys[..2][1] == keys[..1][0];
    }
  }

  /** Such a sequence, typed with its first key once too often, is missed. */
  lemma RepeatedKeyIsMissed(a: byte, b: byte)
    requires a != b
    ensures Typed([a, a, b], [a, a, a, b]) && !Detached([a, a, b], [a, a, a, b])
  {
    var keys := [a, a, b];
    assert EndsWith(keys[..2], keys[..1]);
    assert Retyped(keys, 2, 2) == [a, a, a, b];
    RetypedIsTyped(keys, 2, 2);
    RetypedIsMissed(keys, 2, 2);
  }

  class DetachMatcher {
    const keys: seq<byte>
    var matched: nat

    ghost var consumed: seq<byte>   // everything typed since the attach began
    ghost var forwarded: seq<byte>  // what of it has gone to the PTY

    /** Everything typed has been forwarded, except the held beginning of the sequence. */
    ghost predicate Valid()
      reads this
    {
      && matched <= |keys|
      && forwarded + keys[..matched] == consumed
      && (keys == [] || (matched < |keys| && matched == HeldAfter(keys, consumed)))
    }

    constructor (keys: seq<byte>)
      ensures Valid() && this.keys == keys && consumed == []
    {
      this.keys := keys;
      matched := 0;
      consumed, forwarded := [], [];
    }

    /** Returns what to forward, and whether the attach ends; `used` bytes of the input were looked at. */
    method Feed(input: seq<byte>) returns (out: seq<byte>, done: bool, ghost used: nat)
      requires Valid()
      modifies this
      ensures used <= |input|
      ensures !done ==> Valid() && used == |input|
      ensures consumed == old(consumed) + input[..used]
      ensures forwarded == old(forwarded) + out
      ensures done ==> && keys != [] && matched == 0 && used > 0
                       && Detached(keys, consumed)
                       && !Detached(keys, old(consumed) + input[..used - 1])
                       && forwarded + keys == consumed
    {
      if |keys| == 0 {
        used := |input|;
        consumed, forwarded := consumed + input, forwarded + input;
        return input, false, used;
      }
      out, done, used := [], false, 0;
      var i := 0;
      while i < |input|
        invariant Valid() && used == i <= |input|
        invariant consumed == old(consumed) + input[..i]
        invariant forwarded == old(forwarded) + out
      {
        var forward;
        HoldByte(old(consumed), input, i, input[i]);
        forward, done := FeedByte(input[i]);
        Associative(old(forwarded), out, forward);
        out := out + forward;
        i, used := i + 1, i + 1;
        if done {
          return;
        }
      }
    }

    /** One turn of the loop in Feed. */
    method FeedByte(b: byte) returns (out: seq<byte>, done: bool)
      requires Valid() && keys != []
      modifies this
      ensures !done ==> Valid()
      ensures consumed == old(consumed) + [b]
      ensures forwarded == old(forwarded) + out
      ensures done ==> matched == 0 && Detached(keys, consumed) && forwarded + keys == consumed
      ensures !Detached(keys, old(consumed))
    {
      HeldAfterByte(keys, consumed, b);
      consumed := consumed + [b];
      out, done := [], false;
      if b == keys[matched] {
        HoldByte(forwarded, keys, matched, b);
        matched := matched + 1;
        if matched == |keys| {
          assert keys[..matched] == keys;
          matched := 0;
          done := true;
        }
        return;
      }
      if matched > 0 {
        out := keys[..matched];
        forwarded := forwarded + keys[..matched];
        matched := 0;
      }
      if b == keys[0] {
        HoldByte(forwarded, keys, 0, b);
        matched := 1;
        return;
      }
      out := out + [b];
      forwarded := forwarded + [b];
    }
  }

  lemma HoldByte(forwarded: seq<byte>, keys: seq<byte>, m: nat, b: byte)
    requires m < |keys| && b == keys[m]
    ensures (forwarded + keys[..m]) + [b] == forwarded + keys[..m + 1]
  {
  }
}
