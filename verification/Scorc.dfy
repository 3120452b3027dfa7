/**
 The rewriting of ESC [ u into ESC 8 on the way to the terminal emulator (pkg/ptysession/scorc.go).

 The stream is read as a sequence of tokens: a plain byte, ESC followed by one byte other than `[`, or
 ESC [ followed by any byte. What is left at the end is held back until more arrives.
 */
module Scorc {
  import opened Bytes

  const ESC: byte := 0x1b
  const BRACKET: byte := 0x5b
  const LETTER_U: byte := 0x75
  const DIGIT_8: byte := 0x38

  /** Restore cursor, as SCO spells it and as DEC spells it. */
  const SCORC: seq<byte> := [ESC, BRACKET, LETTER_U]
  const DECRC: seq<byte> := [ESC, DIGIT_8]

  predicate IsToken(t: seq<byte>) {
    || (|t| == 1 && t[0] != ESC)
    || (|t| == 2 && t[0] == ESC && t[1] != BRACKET)
    || (|t| == 3 && t[0] == ESC && t[1] == BRACKET)
  }

  predicate AllTokens(ts: seq<seq<byte>>) {
    forall t :: t in ts ==> IsToken(t)
  }

  /** The three values the carried-over bytes can take. */
  predicate IsHeld(p: seq<byte>) {
    p == [] || p == [ESC] || p == [ESC, BRACKET]
  }

  /** The length of the token at the front of `s`, 0 when what is there is still incomplete. */
  function TokenLength(s: seq<byte>): (n: nat)
    ensures n <= |s|
    ensures if n == 0 then IsHeld(s) else IsToken(s[..n])
  {
    if s == [] then 0
    else if s[0] != ESC then 1
    else if |s| == 1 then 0
    else if s[1] != BRACKET then 2
    else if |s| == 2 then 0
    else 3
  }

  function Tokens(s: seq<byte>): seq<seq<byte>> {
    var n := TokenLength(s);
    if n == 0 then [] else [s[..n]] + Tokens(s[n..])
  }

  function Held(s: seq<byte>): seq<byte> {
    var n := TokenLength(s);
    if n == 0 then s else Held(s[n..])
  }

  function Emit(t: seq<byte>): seq<byte> {
    if t == SCORC then DECRC else t
  }

  function EmitAll(ts: seq<seq<byte>>): (es: seq<seq<byte>>)
    ensures |es| == |ts|
    ensures forall i :: 0 <= i < |ts| ==> es[i] == Emit(ts[i])
  {
    if ts == [] then [] else [Emit(ts[0])] + EmitAll(ts[1..])
  }

  /** What the emulator has been given once the stream `s` has been read. */
  function Rewritten(s: seq<byte>): seq<byte> {
    Concat(EmitAll(Tokens(s)))
  }

  lemma {:induction false} TokensCover(s: seq<byte>)
    ensures s == Concat(Tokens(s)) + Held(s)
    ensures AllTokens(Tokens(s)) && IsHeld(Held(s))
    decreases |s|
  {
    var n := TokenLength(s);
    if n != 0 {
      TokensCover(s[n..]);
      assert s == s[..n] + s[n..];
    }
  }

  /** The tokens form a prefix code: a stream splits into tokens and a held rest in one way only. */
  lemma {:induction false} SplitIsUnique(ts: seq<seq<byte>>, p: seq<byte>)
    requires AllTokens(ts) && IsHeld(p)
    ensures Tokens(Concat(ts) + p) == ts
    ensures Held(Concat(ts) + p) == p
  {
    if ts == [] {
      assert Concat(ts) + p == p;
    } else {
      var t, rest := ts[0], Concat(ts[1..]) + p;
      var s := Concat(ts) + p;
      assert s == t + rest;
      assert t in ts && s[..|t|] == t && s[|t|..] == rest;
      assert TokenLength(s) == |t|;
      SplitIsUnique(ts[1..], p);
    }
  }

  lemma EmitAllSplit(a: seq<seq<byte>>, b: seq<seq<byte>>)
    ensures EmitAll(a + b) == EmitAll(a) + EmitAll(b)
  {
  }

  lemma CutRejoined(a: seq<byte>, b: seq<byte>)
    ensures a + b == Concat(Tokens(a) + Tokens(Held(a) + b)) + Held(Held(a) + b)
    ensures AllTokens(Tokens(a) + Tokens(Held(a) + b)) && IsHeld(Held(Held(a) + b))
  {
    var rest := Held(a) + b;
    TokensCover(a);
    TokensCover(rest);
    Rejoin(a, b, Concat(Tokens(a)), Held(a), Concat(Tokens(rest)), Held(rest));
    ConcatSplit(Tokens(a), Tokens(rest));
  }

  /** Where the stream is cut into chunks makes no difference, given that the held bytes go in front of the next. */
  lemma ChunkInvariance(a: seq<byte>, b: seq<byte>)
    ensures Tokens(a + b) == Tokens(a) + Tokens(Held(a) + b)
    ensures Held(a + b) == Held(Held(a) + b)
    ensures Rewritten(a + b) == Rewritten(a) + Rewritten(Held(a) + b)
  {
    var ts, us := Tokens(a), Tokens(Held(a) + b);
    CutRejoined(a, b);
    SplitIsUnique(ts + us, Held(Held(a) + b));
    EmitAllSplit(ts, us);
    ConcatSplit(EmitAll(ts), EmitAll(us));
  }

  /** Reading the output again finds exactly the emitted tokens, so a second pass changes nothing. */
  lemma Idempotence(s: seq<byte>)
    ensures Tokens(Rewritten(s) + Held(s)) == EmitAll(Tokens(s))
    ensures SCORC !in Tokens(Rewritten(s) + Held(s))
    ensures Rewritten(Rewritten(s) + Held(s)) == Rewritten(s)
    ensures Held(Rewritten(s) + Held(s)) == Held(s)
  {
    TokensCover(s);
    var es := EmitAll(Tokens(s));
    SplitIsUnique(es, Held(s));
    assert EmitAll(es) == es;
  }

  function Rewrites(ts: seq<seq<byte>>): nat {
    if ts == [] then 0 else (if ts[0] == SCORC then 1 else 0) + Rewrites(ts[1..])
  }

  lemma {:induction false} EmittedLength(ts: seq<seq<byte>>)
    ensures |Concat(ts)| == |Concat(EmitAll(ts))| + Rewrites(ts)
  {
    if ts != [] {
      EmittedLength(ts[1..]);
    }
  }

  lemma {:induction false} NoRewrites(ts: seq<seq<byte>>)
    ensures Rewrites(ts) == 0 <==> SCORC !in ts
    ensures SCORC !in ts ==> EmitAll(ts) == ts
  {
    if ts != [] {
      NoRewrites(ts[1..]);
      assert ts == [ts[0]] + ts[1..];
    }
  }

  /**
   Every byte read is emitted, held, or saved by a rewrite, and the stream passes unchanged exactly when nothing is
   rewritten.
   */
  lemma {:induction false} Accounting(s: seq<byte>)
    ensures |s| == |Rewritten(s)| + |Held(s)| + Rewrites(Tokens(s))
    ensures Rewritten(s) + Held(s) == s <==> SCORC !in Tokens(s)
  {
    TokensCover(s);
    EmittedLength(Tokens(s));
    NoRewrites(Tokens(s));
  }

  /** The emulator is given the very bytes that were read if and only if none were rewritten and none are held. */
  lemma EmulatorSeesTheStreamIff(s: seq<byte>)
    ensures Rewritten(s) == s <==> SCORC !in Tokens(s) && Held(s) == []
  {
    Accounting(s);
    NoRewrites(Tokens(s));
    if Held(s) == [] {
      assert Rewritten(s) + Held(s) == Rewritten(s);
    }
  }

  /** One stream that it is not given as it is. */
  lemma EmulatorSeesAnother()
    ensures Rewritten([0x1b, 0x5b, 0x75]) == [0x1b, 0x38] && Held([0x1b, 0x5b, 0x75]) == []
    ensures Rewritten(SCORC) == DECRC != SCORC
  {
    SplitIsUnique([SCORC], []);
    assert Concat([SCORC]) + [] == SCORC;
    assert EmitAll([SCORC]) == [DECRC];
    assert Concat([DECRC]) == DECRC;
  }

  ghost predicate Contains(s: seq<byte>) {
    exists i :: At(s, SCORC, i)
  }

  lemma {:induction false} TokenOccurs(ts: seq<seq<byte>>, p: seq<byte>, k: nat) returns (i: nat)
    requires k < |ts|
    ensures At(Concat(ts) + p, ts[k], i)
  {
    var before, after := ts[..k], ts[k + 1..];
    assert ts == before + ([ts[k]] + after);
    ConcatSplit(before, [ts[k]] + after);
    i := |Concat(before)|;
    var tail := Concat(after) + p;
    assert Concat(ts) + p == Concat(before) + (ts[k] + tail);
  }

  /** Without ESC [ u in it a stream is never touched. */
  lemma Untouched(s: seq<byte>)
    ensures SCORC in Tokens(s) ==> Contains(s)
    ensures Contains(s) || Rewritten(s) + Held(s) == s
  {
    TokensCover(s);
    Accounting(s);
    if SCORC in Tokens(s) {
      var k :| 0 <= k < |Tokens(s)| && Tokens(s)[k] == SCORC;
      var i := TokenOccurs(Tokens(s), Held(s), k);
    }
  }

  /**
   Two tokens of plain `[` and `u` behind a token that ends in ESC: the only way ESC [ u gets through,
   since the ESC belongs to the sequence before it.
   */
  predicate Straddled(ts: seq<seq<byte>>, k: nat) {
    && k + 2 < |ts|
    && EndsInEscape(ts[k])
    && ts[k + 1] == [BRACKET] && ts[k + 2] == [LETTER_U]
  }

  ghost predicate SomeStraddled(ts: seq<seq<byte>>) {
    exists k: nat :: Straddled(ts, k)
  }

  predicate StartsPlain(s: seq<byte>) {
    |s| >= 2 && s[0] == BRACKET && s[1] == LETTER_U
  }

  lemma FirstByte(es: seq<seq<byte>>, p: seq<byte>, x: byte)
    requires AllTokens(es) && IsHeld(p) && x != ESC
    ensures (Concat(es) + p != [] && (Concat(es) + p)[0] == x) <==> (es != [] && es[0] == [x])
  {
    if es != [] {
      assert es[0] in es;
    }
  }

  lemma TwoPlainBytes(es: seq<seq<byte>>, p: seq<byte>)
    requires AllTokens(es) && IsHeld(p)
    ensures StartsPlain(Concat(es) + p) <==> (|es| >= 2 && es[0] == [BRACKET] && es[1] == [LETTER_U])
  {
    FirstByte(es, p, BRACKET);
    if es != [] && es[0] == [BRACKET] {
      FirstByte(es[1..], p, LETTER_U);
      Associative(es[0], Concat(es[1..]), p);
    }
  }

  /** Shifting an occurrence past a first piece. */
  lemma AtShift(x: seq<byte>, y: seq<byte>, p: seq<byte>, i: int)
    requires i >= |x|
    ensures At(x + y, p, i) <==> At(y, p, i - |x|)
  {
    if i + |p| <= |x + y| {
      assert (x + y)[i..i + |p|] == y[i - |x|..i - |x| + |p|];
    }
  }

  /** An occurrence that starts inside the first token starts at its final ESC. */
  lemma AtInFirst(e: seq<byte>, rest: seq<byte>, i: nat)
    requires IsToken(e) && e != SCORC && i < |e|
    ensures At(e + rest, SCORC, i) <==> (i == |e| - 1 && EndsInEscape(e) && StartsPlain(rest))
  {
    var s := e + rest;
    if i + 3 <= |s| {
      assert s[i..i + 3] == [s[i], s[i + 1], s[i + 2]];
    }
  }

  predicate EndsInEscape(t: seq<byte>) {
    t == [ESC, ESC] || t == [ESC, BRACKET, ESC]
  }

  lemma ContainsStep(e: seq<byte>, rest: seq<byte>)
    requires IsToken(e) && e != SCORC
    ensures Contains(e + rest) <==> Contains(rest) || (EndsInEscape(e) && StartsPlain(rest))
  {
    var s := e + rest;
    if i :| At(s, SCORC, i) {
      if i < |e| {
        AtInFirst(e, rest, i);
      } else {
        AtShift(e, rest, SCORC, i);
      }
    }
    if i :| At(rest, SCORC, i) {
      AtShift(e, rest, SCORC, i + |e|);
      assert At(s, SCORC, i + |e|);
    }
    if EndsInEscape(e) && StartsPlain(rest) {
      AtInFirst(e, rest, |e| - 1);
      assert At(s, SCORC, |e| - 1);
    }
  }

  lemma StraddledStep(es: seq<seq<byte>>)
    requires es != []
    ensures SomeStraddled(es) <==> Straddled(es, 0) || SomeStraddled(es[1..])
  {
    if k: nat :| Straddled(es, k) {
      assert k > 0 ==> Straddled(es[1..], k - 1);
    }
    if k: nat :| Straddled(es[1..], k) {
      assert Straddled(es, k + 1);
    }
  }

  lemma {:induction false} LeftoversOfTokens(es: seq<seq<byte>>, p: seq<byte>)
    requires AllTokens(es) && SCORC !in es && IsHeld(p)
    ensures Contains(Concat(es) + p) <==> SomeStraddled(es)
  {
    if es == [] {
      assert Concat(es) + p == p;
    } else {
      var e, rest := es[0], Concat(es[1..]) + p;
      Associative(e, Concat(es[1..]), p);
      assert e in es;
      LeftoversOfTokens(es[1..], p);
      TwoPlainBytes(es[1..], p);
      ContainsStep(e, rest);
      StraddledStep(es);
    }
  }

  lemma StraddledEmitted(ts: seq<seq<byte>>, k: nat)
    ensures Straddled(EmitAll(ts), k) <==> Straddled(ts, k)
  {
  }

  /** Exactly which streams still show ESC [ u after the rewrite: those in which its ESC ends another sequence. */
  lemma Leftovers(s: seq<byte>)
    ensures Contains(Rewritten(s) + Held(s)) <==> SomeStraddled(Tokens(s))
  {
    TokensCover(s);
    var ts := Tokens(s);
    var es := EmitAll(ts);
    LeftoversOfTokens(es, Held(s));
    forall k: nat
      ensures Straddled(es, k) <==> Straddled(ts, k)
    {
      StraddledEmitted(ts, k);
    }
  }

  /** One such stream: ESC ESC [ u is copied as it is, although it contains ESC [ u. */
  lemma DoubledEscape()
    ensures var s := [ESC] + SCORC;
            Contains(s) && Rewritten(s) == s && Held(s) == []
  {
    var ts := [[ESC, ESC], [BRACKET], [LETTER_U]];
    var s := [ESC] + SCORC;
    assert At(s, SCORC, 1);
    assert Concat(ts[2..]) == [LETTER_U] + Concat<byte>([]);
    assert Concat(ts[1..]) == [BRACKET] + Concat(ts[2..]);
    assert Concat(ts) == [ESC, ESC] + Concat(ts[1..]);
    assert Concat(ts) + [] == s;
    SplitIsUnique(ts, []);
    NoRewrites(ts);
  }

  lemma EscapesAreRead(s: seq<byte>)
    ensures Contains(s) ==> ESC in s
    ensures Held(s) != [] ==> ESC in s
  {
    if i :| At(s, SCORC, i) {
      assert s[i] == s[i..i + 3][0];
    }
    TokensCover(s);
    assert forall x :: x in Held(s) ==> x in s;
  }

  lemma PlainStream(s: seq<byte>)
    requires ESC !in s
    ensures Rewritten(s) == s && Held(s) == []
  {
    EscapesAreRead(s);
    Untouched(s);
  }

  class ScorcRewriter {
    var pending: seq<byte>
    // Scratch buffers, kept from one call to the next.
    var input: seq<byte>
    var output: seq<byte>

    ghost var consumed: seq<byte>  // every byte of every chunk
    ghost var emitted: seq<byte>   // every byte handed to the emulator

    ghost predicate Valid()
      reads this
    {
      && emitted == Rewritten(consumed)
      && pending == Held(consumed)
    }

    constructor ()
      ensures Valid() && consumed == [] && emitted == []
    {
      pending, input, output := [], [], [];
      consumed, emitted := [], [];
    }

    method Translate(chunk: seq<byte>) returns (r: seq<byte>)
      requires Valid()
      modifies this
      ensures Valid()
      ensures consumed == old(consumed) + chunk
      ensures emitted == old(emitted) + r
    {
      ghost var all := pending + chunk;
      ChunkInvariance(consumed, chunk);
      if |pending| == 0 && ESC !in chunk {
        assert all == chunk;
        PlainStream(chunk);
        r := chunk;
      } else {
        r := Rewrite(chunk);
      }
      consumed := consumed + chunk;
      emitted := emitted + r;
    }

    /** The slow path of the rewrite. */
    method Rewrite(chunk: seq<byte>) returns (r: seq<byte>)
      modifies `pending, `input, `output
      ensures r == Rewritten(old(pending) + chunk)
      ensures pending == Held(old(pending) + chunk)
    {
      var src := pending + chunk;
      input := src;
      pending := [];
      var out: seq<byte> := [];
      var i := 0;
      while i < |src|
        modifies `pending
        invariant i <= |src|
        invariant pending == []
        invariant Progress(src, out, i)
      {
        if src[i] != ESC {
          PlainByte(src, out, i);
          out := out + [src[i]];
          i := i + 1;
          continue;
        }
        if i + 1 >= |src| {
          Stop(src, out, i);
          pending := pending + [src[i]];
          break;
        }
        if src[i + 1] != BRACKET {
          EscapePair(src, out, i);
          out := out + [src[i], src[i + 1]];
          i := i + 2;
          continue;
        }
        if i + 2 >= |src| {
          Stop(src, out, i);
          pending := pending + [src[i], src[i + 1]];
          break;
        }
        ControlSequence(src, out, i);
        if src[i + 2] == LETTER_U {
          out := out + [ESC, DIGIT_8];
        } else {
          out := out + [src[i], src[i + 1], src[i + 2]];
        }
        i := i + 3;
      }
      output := out;
      r := out;
    }
  }

  /** After `i` bytes of `s` the loop has put `out` aside. */
  ghost predicate Progress(s: seq<byte>, out: seq<byte>, i: nat) {
    && i <= |s|
    && Rewritten(s) == out + Rewritten(s[i..])
    && Held(s) == Held(s[i..])
  }

  /** The token of `n` bytes at offset `i` is complete and becomes `piece`. */
  predicate Becomes(s: seq<byte>, i: nat, n: nat, piece: seq<byte>) {
    && 0 < n && i + n <= |s|
    && TokenLength(s[i..]) == n
    && piece == Emit(s[i..i + n])
  }

  lemma Advance(s: seq<byte>, out: seq<byte>, i: nat, n: nat, piece: seq<byte>)
    requires Progress(s, out, i)
    requires Becomes(s, i, n, piece)
    ensures Progress(s, out + piece, i + n)
  {
    var t := s[i..];
    assert t[..n] == s[i..i + n] && t[n..] == s[i + n..];
    assert Tokens(t)[1..] == Tokens(s[i + n..]);
    Absorb(Rewritten(s), out, piece, Rewritten(s[i + n..]));
  }

  lemma PlainByte(s: seq<byte>, out: seq<byte>, i: nat)
    requires Progress(s, out, i) && i < |s| && s[i] != ESC
    ensures Progress(s, out + [s[i]], i + 1)
  {
    Advance(s, out, i, 1, [s[i]]);
  }

  lemma EscapePair(s: seq<byte>, out: seq<byte>, i: nat)
    requires Progress(s, out, i) && i + 1 < |s| && s[i] == ESC && s[i + 1] != BRACKET
    ensures Progress(s, out + [s[i], s[i + 1]], i + 2)
  {
    assert s[i..][1] == s[i + 1];
    Advance(s, out, i, 2, [s[i], s[i + 1]]);
  }

  lemma ControlSequence(s: seq<byte>, out: seq<byte>, i: nat)
    requires Progress(s, out, i) && i + 2 < |s| && s[i] == ESC && s[i + 1] == BRACKET
    ensures Progress(s, out + if s[i + 2] == LETTER_U then DECRC else [s[i], s[i + 1], s[i + 2]], i + 3)
  {
    assert s[i..][1] == s[i + 1];
    assert s[i..i + 3] == [s[i], s[i + 1], s[i + 2]];
    Advance(s, out, i, 3, if s[i + 2] == LETTER_U then DECRC else [s[i], s[i + 1], s[i + 2]]);
  }

  /** What is left at offset `i` is incomplete. */
  lemma Stop(s: seq<byte>, out: seq<byte>, i: nat)
    requires Progress(s, out, i) && IsHeld(s[i..])
    ensures Rewritten(s) == out && Held(s) == s[i..]
  {
    assert TokenLength(s[i..]) == 0;
  }
}
