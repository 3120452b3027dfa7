/** The rolling-window scanner of `ctl expect` (cmd/pupptyeer/ctl.go). */
module Expect {
  import opened Bytes
  import Fanout

  const EXPECT_WINDOW: nat := 256 * 1024

  datatype Found = NotFound | Found(start: nat, end: nat)

  /** A regular expression, seen only through its leftmost match in a buffer. */
  type Regex = seq<byte> -> Found

  /** The first offset at or after `i` where `p` stands in `s`, or -1. */
  function IndexFrom(s: seq<byte>, p: seq<byte>, i: nat): (k: int)
    ensures k == -1 || i <= k <= |s| - |p|
    decreases |s| + 1 - i
  {
    if i + |p| > |s| then -1
    else if At(s, p, i) then i
    else IndexFrom(s, p, i + 1)
  }

  lemma {:induction false} IndexIsFirst(s: seq<byte>, p: seq<byte>, i: nat)
    ensures var k := IndexFrom(s, p, i);
            && (k >= 0 ==> At(s, p, k))
            && forall j :: i <= j && (k < 0 || j < k) ==> !At(s, p, j)
    decreases |s| + 1 - i
  {
    if i + |p| <= |s| && !At(s, p, i) {
      IndexIsFirst(s, p, i + 1);
    }
  }

  /** What a regular expression finds, if there is one. */
  function MatchOf(buf: seq<byte>, re: Option<Regex>): Found {
    match re case None => NotFound case Some(find) => find(buf)
  }

  function FirstMatch(buf: seq<byte>, re: Option<Regex>, substr: seq<byte>): Found {
    var m := MatchOf(buf, re);
    var i := if substr == [] then -1 else IndexFrom(buf, substr, 0);
    if i >= 0 && (m.NotFound? || i < m.start) then Found(i, i + |substr|) else m
  }

  /** The literal stands at `i`. */
  predicate LiteralAt(buf: seq<byte>, substr: seq<byte>, i: int) {
    substr != [] && At(buf, substr, i)
  }

  /**
   What is reported is the match of the expression or an occurrence of the literal; neither is there any earlier, and where
   both begin it is the expression's. Nothing is reported only if neither is there at all.
   */
  lemma FirstMatchIsFirst(buf: seq<byte>, re: Option<Regex>, substr: seq<byte>)
    ensures var m, r := FirstMatch(buf, re, substr), MatchOf(buf, re);
            match m
            case NotFound => r.NotFound? && forall j :: 0 <= j ==> !LiteralAt(buf, substr, j)
            case Found(start, end) =>
              && (m == r || (LiteralAt(buf, substr, start) && end == start + |substr|))
              && (forall j :: 0 <= j < start ==> !LiteralAt(buf, substr, j))
              && (r.Found? ==> start <= r.start && (start == r.start ==> m == r))
  {
    if substr != [] {
      IndexIsFirst(buf, substr, 0);
    }
  }

  /** Where a match leaves the scan: behind it, but always at least one byte on. */
  function Resume(m: Found): (e: nat)
    requires m.Found?
    ensures e > m.start && e >= m.end
  {
    if m.end <= m.start then m.start + 1 else m.end
  }

  /** The state of the scanner: what it has reported, its buffer, and the offset of the buffer in the stream. */
  datatype Window = Window(hits: seq<nat>, buf: seq<byte>, base: nat)

  datatype Scanned = Quiet(w: Window) | Panicked(w: Window)

  /** The window after a match from `start` has been reported and skipped up to `end`. */
  function Past(w: Window, start: nat, end: nat): Window
    requires end <= |w.buf|
  {
    Window(w.hits + [w.base + start], w.buf[end..], w.base + end)
  }

  /** Reports every match in the buffer, moving past each; the program dies when it would move past the end. */
  function Drain(re: Option<Regex>, substr: seq<byte>, w: Window): (r: Scanned)
    decreases |w.buf|
  {
    var m := FirstMatch(w.buf, re, substr);
    if m.NotFound? then Quiet(w)
    else if Resume(m) > |w.buf| then Panicked(Window(w.hits + [w.base + m.start], w.buf, w.base))
    else Drain(re, substr, Past(w, m.start, Resume(m)))
  }

  lemma DrainStep(re: Option<Regex>, substr: seq<byte>, w: Window)
    ensures var m := FirstMatch(w.buf, re, substr);
            Drain(re, substr, w)
            == if m.NotFound? then Quiet(w)
               else if Resume(m) > |w.buf| then Panicked(Window(w.hits + [w.base + m.start], w.buf, w.base))
               else Drain(re, substr, Past(w, m.start, Resume(m)))
  {
    hide FirstMatch, Past, Resume;
  }

  lemma LiteralMatch(p: seq<byte>, buf: seq<byte>)
    requires p != []
    ensures var i := IndexFrom(buf, p, 0);
            FirstMatch(buf, None, p) == if i < 0 then NotFound else Found(i, i + |p|)
  {
  }

  /** Keeps the last `size` bytes of the buffer. */
  function Trim(w: Window, size: nat): (r: Window)
    ensures |r.buf| <= size && r.hits == w.hits && r.base >= w.base
    ensures r.base + |r.buf| == w.base + |w.buf|
  {
    if |w.buf| > size then
      var drop := |w.buf| - size;
      Window(w.hits, w.buf[drop..], w.base + drop)
    else w
  }

  /** The occurrences of `p` from `i` on, each the first that does not overlap the one before. */
  function Hits(s: seq<byte>, p: seq<byte>, i: nat): seq<nat>
    requires p != []
    decreases |s| + 1 - i
  {
    var k := IndexFrom(s, p, i);
    if k < 0 then [] else [k] + Hits(s, p, k + |p|)
  }

  /** The same list, built from the front: `acc`, and then the hits from `i` on. */
  function Greedy(s: seq<byte>, p: seq<byte>, acc: seq<nat>, i: nat): seq<nat>
    requires p != []
    decreases |s| + 1 - i
  {
    var k := IndexFrom(s, p, i);
    if k < 0 then acc else Greedy(s, p, acc + [k], k + |p|)
  }

  lemma GreedyUnfold(s: seq<byte>, p: seq<byte>, acc: seq<nat>, i: nat, k: nat, more: seq<nat>, next: nat)
    requires p != [] && IndexFrom(s, p, i) == k
    requires more == acc + [k] && next == k + |p|
    ensures Greedy(s, p, acc, i) == Greedy(s, p, more, next)
  {
  }

  lemma {:induction false} GreedyIsHits(s: seq<byte>, p: seq<byte>, acc: seq<nat>, i: nat)
    requires p != []
    ensures Greedy(s, p, acc, i) == acc + Hits(s, p, i)
    decreases |s| + 1 - i
  {
    var k := IndexFrom(s, p, i);
    if k >= 0 {
      GreedyIsHits(s, p, acc + [k], k + |p|);
      Associative(acc, [k], Hits(s, p, k + |p|));
    }
  }

  lemma HitsUnfold(s: seq<byte>, p: seq<byte>, i: nat)
    requires p != []
    ensures var k := IndexFrom(s, p, i);
            if k < 0 then Hits(s, p, i) == []
            else && |Hits(s, p, i)| == 1 + |Hits(s, p, k + |p|)|
                 && Hits(s, p, i)[0] == k
                 && forall n :: 0 < n < |Hits(s, p, i)| ==> Hits(s, p, i)[n] == Hits(s, p, k + |p|)[n - 1]
  {
  }

  /** Every hit is an occurrence. */
  lemma {:induction false} HitsOccur(s: seq<byte>, p: seq<byte>, i: nat, n: nat)
    requires p != [] && n < |Hits(s, p, i)|
    ensures Hits(s, p, i)[n] >= i && At(s, p, Hits(s, p, i)[n])
    decreases n
  {
    HitsUnfold(s, p, i);
    IndexIsFirst(s, p, i);
    if n > 0 {
      HitsOccur(s, p, IndexFrom(s, p, i) + |p|, n - 1);
    }
  }

  /** No two hits overlap. */
  lemma {:induction false} HitsApart(s: seq<byte>, p: seq<byte>, i: nat, n: nat, m: nat)
    requires p != [] && n < m < |Hits(s, p, i)|
    ensures Hits(s, p, i)[n] + |p| <= Hits(s, p, i)[m]
    decreases n
  {
    HitsUnfold(s, p, i);
    var next := IndexFrom(s, p, i) + |p|;
    if n > 0 {
      HitsApart(s, p, next, n - 1, m - 1);
    } else {
      HitsOccur(s, p, next, m - 1);
    }
  }

  /** No occurrence escapes being hit or overlapped from the left. */
  lemma {:induction false} HitsCover(s: seq<byte>, p: seq<byte>, i: nat, j: nat)
    requires p != [] && j >= i && At(s, p, j)
    ensures Covered(Hits(s, p, i), |p|, j)
    decreases j - i
  {
    HitsUnfold(s, p, i);
    IndexIsFirst(s, p, i);
    var next := IndexFrom(s, p, i) + |p|;
    if j < next {
      assert Hits(s, p, i)[0] <= j;
    } else {
      HitsCover(s, p, next, j);
      var n :| 0 <= n < |Hits(s, p, next)| && Hits(s, p, next)[n] <= j < Hits(s, p, next)[n] + |p|;
      assert Hits(s, p, i)[n + 1] == Hits(s, p, next)[n];
    }
  }

  ghost predicate Covered(hits: seq<nat>, length: nat, j: int) {
    exists n :: 0 <= n < |hits| && hits[n] <= j < hits[n] + length
  }

  lemma AtDropped(s: seq<byte>, p: seq<byte>, base: nat, i: nat)
    requires base <= |s|
    ensures At(s[base..], p, i) <==> At(s, p, base + i)
  {
    if base + i + |p| <= |s| {
      assert s[base..][i..i + |p|] == s[base + i..base + i + |p|];
    }
  }

  lemma AtExtended(s: seq<byte>, t: seq<byte>, p: seq<byte>, i: int)
    requires s <= t && i + |p| <= |s|
    ensures At(s, p, i) <==> At(t, p, i)
  {
    if 0 <= i {
      assert s[i..i + |p|] == t[i..i + |p|];
    }
  }

  /** Looking in the window is looking in the stream. */
  lemma IndexInWindow(s: seq<byte>, p: seq<byte>, base: nat, buf: seq<byte>)
    requires base <= |s| && buf == s[base..]
    ensures var i, k := IndexFrom(buf, p, 0), IndexFrom(s, p, base);
            if i < 0 then k < 0 else k == base + i
  {
    var i, k := IndexFrom(buf, p, 0), IndexFrom(s, p, base);
    IndexIsFirst(buf, p, 0);
    IndexIsFirst(s, p, base);
    if i >= 0 {
      AtDropped(s, p, base, i);
    }
    if k >= 0 {
      AtDropped(s, p, base, k - base);
    }
  }

  /** What comes later does not move a first occurrence that is already there. */
  lemma IndexIsStable(s: seq<byte>, t: seq<byte>, p: seq<byte>, i: nat)
    requires s <= t && IndexFrom(s, p, i) >= 0
    ensures IndexFrom(t, p, i) == IndexFrom(s, p, i)
  {
    var k, l := IndexFrom(s, p, i), IndexFrom(t, p, i);
    IndexIsFirst(s, p, i);
    IndexIsFirst(t, p, i);
    AtExtended(s, t, p, k);
    if 0 <= l < k {
      AtExtended(s, t, p, l);
    }
  }

  /** A stretch in which no occurrence starts can be skipped. */
  lemma GreedySkip(s: seq<byte>, p: seq<byte>, acc: seq<nat>, i: nat, j: nat)
    requires p != [] && i <= j
    requires forall k :: i <= k < j ==> !At(s, p, k)
    ensures Greedy(s, p, acc, i) == Greedy(s, p, acc, j)
  {
    IndexIsFirst(s, p, i);
    IndexIsFirst(s, p, j);
    assert IndexFrom(s, p, i) == IndexFrom(s, p, j);
  }

  /** The reports so far and the hits from the window on are all the hits of `t`. */
  predicate OnTrackFor(t: seq<byte>, p: seq<byte>, hits: seq<nat>, base: nat)
    requires p != []
  {
    Greedy(t, p, [], 0) == Greedy(t, p, hits, base)
  }

  /** Whatever follows the stream `s`, the reports so far and the hits from the window on are all its hits. */
  ghost predicate Accurate(s: seq<byte>, p: seq<byte>, hits: seq<nat>, base: nat)
    requires p != []
  {
    forall t :: s <= t ==> OnTrackFor(t, p, hits, base)
  }

  /** Besides, the window is the end of the stream. */
  ghost predicate OnTrack(s: seq<byte>, p: seq<byte>, w: Window)
    requires p != []
  {
    && w.base <= |s| && w.buf == s[w.base..]
    && Accurate(s, p, w.hits, w.base)
  }

  lemma AccurateHit(s: seq<byte>, p: seq<byte>, hits: seq<nat>, base: nat, k: nat, more: seq<nat>, next: nat)
    requires p != [] && IndexFrom(s, p, base) == k
    requires Accurate(s, p, hits, base)
    requires more == hits + [k] && next == k + |p|
    ensures Accurate(s, p, more, next)
  {
    forall t | s <= t
      ensures OnTrackFor(t, p, more, next)
    {
      assert OnTrackFor(t, p, hits, base);
      IndexIsStable(s, t, p, base);
      GreedyUnfold(t, p, hits, base, k, more, next);
    }
  }

  lemma WindowBehind(s: seq<byte>, w: Window, start: nat, end: nat)
    requires w.base <= |s| && w.buf == s[w.base..] && end <= |w.buf|
    ensures var r := Past(w, start, end);
            r.hits == w.hits + [w.base + start] && r.base == w.base + end <= |s| && r.buf == s[r.base..]
  {
  }

  lemma OnTrackHit(s: seq<byte>, p: seq<byte>, w: Window, i: nat)
    requires p != [] && OnTrack(s, p, w)
    requires IndexFrom(w.buf, p, 0) == i
    ensures OnTrack(s, p, Past(w, i, i + |p|))
  {
    hide IndexFrom, Accurate, Past;
    var r := Past(w, i, i + |p|);
    WindowBehind(s, w, i, i + |p|);
    IndexInWindow(s, p, w.base, w.buf);
    AccurateHit(s, p, w.hits, w.base, w.base + i, r.hits, r.base);
  }

  lemma {:induction false} DrainStaysOnTrack(s: seq<byte>, p: seq<byte>, w: Window)
    requires p != [] && OnTrack(s, p, w)
    ensures var r := Drain(None, p, w);
            r.Quiet? && OnTrack(s, p, r.w) && IndexFrom(s, p, r.w.base) < 0
    decreases |w.buf|
  {
    hide Drain, IndexFrom, FirstMatch, Greedy;
    var i := IndexFrom(w.buf, p, 0);
    LiteralMatch(p, w.buf);
    DrainStep(None, p, w);
    if i < 0 {
      IndexInWindow(s, p, w.base, w.buf);
    } else {
      OnTrackHit(s, p, w, i);
      DrainStaysOnTrack(s, p, Past(w, i, i + |p|));
    }
  }

  /** Trimming loses nothing as long as the literal is at most one byte longer than what is kept. */
  lemma TrimStaysOnTrack(s: seq<byte>, p: seq<byte>, w: Window, size: nat)
    requires p != [] && |p| <= size + 1
    requires OnTrack(s, p, w) && IndexFrom(s, p, w.base) < 0
    ensures OnTrack(s, p, Trim(w, size))
  {
    var r := Trim(w, size);
    assert r.buf == s[r.base..];
    forall t | s <= t
      ensures OnTrackFor(t, p, r.hits, r.base)
    {
      assert OnTrackFor(t, p, w.hits, w.base);
      IndexIsFirst(s, p, w.base);
      forall k | w.base <= k < r.base
        ensures !At(t, p, k)
      {
        AtExtended(s, t, p, k);
      }
      GreedySkip(t, p, w.hits, w.base, r.base);
    }
  }

  /** The scanner in follow mode, from the moment it is armed. */
  function Follow(p: seq<byte>, size: nat, chunks: seq<seq<byte>>): Window {
    if chunks == [] then Window([], [], 0)
    else
      var w := Follow(p, size, chunks[..|chunks| - 1]);
      Trim(Drain(None, p, w.(buf := w.buf + chunks[|chunks| - 1])).w, size)
  }

  lemma {:induction false} FollowStaysOnTrack(p: seq<byte>, size: nat, chunks: seq<seq<byte>>)
    requires p != [] && |p| <= size + 1
    ensures OnTrack(Concat(chunks), p, Follow(p, size, chunks))
    ensures Follow(p, size, chunks).hits == Hits(Concat(chunks), p, 0)
  {
    if chunks != [] {
      var front, c := chunks[..|chunks| - 1], chunks[|chunks| - 1];
      var s, w := Concat(front), Follow(p, size, front);
      FollowStaysOnTrack(p, size, front);
      assert chunks == front + [c];
      ConcatSnoc(front, c);
      FollowStep(s, p, size, w, c);
    }
  }

  lemma FollowStep(s: seq<byte>, p: seq<byte>, size: nat, w: Window, c: seq<byte>)
    requires p != [] && |p| <= size + 1 && OnTrack(s, p, w)
    ensures var r := Trim(Drain(None, p, w.(buf := w.buf + c)).w, size);
            OnTrack(s + c, p, r) && r.hits == Hits(s + c, p, 0)
  {
    var fed := w.(buf := w.buf + c);
    StillOnTrack(s, p, w, c);
    DrainStaysOnTrack(s + c, p, fed);
    var d := Drain(None, p, fed).w;
    TrimStaysOnTrack(s + c, p, d, size);
    assert OnTrackFor(s + c, p, d.hits, d.base);
    GreedyIsHits(s + c, p, [], 0);
  }

  lemma StillOnTrack(s: seq<byte>, p: seq<byte>, w: Window, c: seq<byte>)
    requires p != [] && OnTrack(s, p, w)
    ensures OnTrack(s + c, p, w.(buf := w.buf + c))
  {
    assert w.buf + c == (s + c)[w.base..];
    forall t | s + c <= t
      ensures OnTrackFor(t, p, w.hits, w.base)
    {
      assert s <= t;
    }
  }

  /** Output arrives in frames that are neither empty nor larger than one read of the PTY. */
  predicate Frames(chunks: seq<seq<byte>>) {
    forall c :: c in chunks ==> 0 < |c| <= Fanout.PTY_CHUNK
  }

  /** All reports are right, however the stream is cut into frames. */
  ghost predicate AlwaysExact(p: seq<byte>, size: nat)
    requires p != []
  {
    forall chunks :: Frames(chunks) ==> Follow(p, size, chunks).hits == Hits(Concat(chunks), p, 0)
  }

  lemma NoRoom(s: seq<byte>, p: seq<byte>)
    requires |s| < |p|
    ensures IndexFrom(s, p, 0) == -1
  {
  }

  lemma AfterChunk(p: seq<byte>, w: Window, c: seq<byte>)
    requires p != [] && IndexFrom(w.buf + c, p, 0) < 0
    ensures Drain(None, p, w.(buf := w.buf + c)) == Quiet(Window(w.hits, w.buf + c, w.base))
  {
    LiteralMatch(p, w.buf + c);
    DrainStep(None, p, w.(buf := w.buf + c));
  }

  lemma ChunkWithoutRoom(p: seq<byte>, size: nat, front: seq<seq<byte>>, c: seq<byte>)
    requires p != [] && |Follow(p, size, front).buf + c| < |p|
    ensures var w := Follow(p, size, front);
            Follow(p, size, front + [c]) == Trim(Window(w.hits, w.buf + c, w.base), size)
  {
    var w, all := Follow(p, size, front), front + [c];
    assert all[..|all| - 1] == front && all[|all| - 1] == c;
    NoRoom(w.buf + c, p);
    AfterChunk(p, w, c);
  }

  /** As long as less has arrived than the literal has bytes, nothing is reported, and the window is all that fits. */
  lemma {:induction false} NothingYet(p: seq<byte>, size: nat, chunks: seq<seq<byte>>)
    requires p != [] && |Concat(chunks)| < |p|
    ensures var w := Follow(p, size, chunks);
            w.hits == [] && |w.buf| <= size && |w.buf| <= |Concat(chunks)|
    decreases |chunks|
  {
    if chunks != [] {
      var front, c := chunks[..|chunks| - 1], chunks[|chunks| - 1];
      assert chunks == front + [c];
      ConcatSnoc(front, c);
      NothingYet(p, size, front);
      ChunkWithoutRoom(p, size, front, c);
    }
  }

  /** A literal too long for the window is missed when its last byte arrives on its own, however the rest is cut. */
  lemma LastByteAlone(p: seq<byte>, size: nat, front: seq<seq<byte>>, b: byte)
    requires |p| > size + 1 && Concat(front) + [b] == p
    ensures Follow(p, size, front + [[b]]).hits == []
    ensures Hits(Concat(front + [[b]]), p, 0) == [0]
  {
    NothingYet(p, size, front);
    ChunkWithoutRoom(p, size, front, [b]);
    ConcatSnoc(front, [b]);
    assert At(p, p, 0);
    HitsUnfold(p, p, 0);
    HitsUnfold(p, p, |p|);
  }

  /** The stream byte by byte. */
  function Bytewise(s: seq<byte>): (chunks: seq<seq<byte>>)
    ensures Frames(chunks)
  {
    if s == [] then [] else Bytewise(s[..|s| - 1]) + [[s[|s| - 1]]]
  }

  lemma {:induction false} BytewiseIsAll(s: seq<byte>)
    ensures Concat(Bytewise(s)) == s
  {
    if s != [] {
      BytewiseIsAll(s[..|s| - 1]);
      ConcatSnoc(Bytewise(s[..|s| - 1]), [s[|s| - 1]]);
    }
  }

  /** Byte by byte, a literal that is too long is missed. */
  lemma TooLongIsMissed(p: seq<byte>, size: nat)
    requires |p| > size + 1
    ensures !AlwaysExact(p, size)
  {
    hide Follow, Hits, Concat;
    var s, b := p[..|p| - 1], p[|p| - 1];
    var chunks := Bytewise(s) + [[b]];
    BytewiseIsAll(s);
    LastByteAlone(p, size, Bytewise(s), b);
    assert Frames(chunks);
    hide Bytewise;
  }

  /** In follow mode a literal is reported exactly, in whatever frames, if and only if it fits the window and one byte. */
  lemma ExactIffItFits(p: seq<byte>, size: nat)
    requires p != []
    ensures AlwaysExact(p, size) <==> |p| <= size + 1
  {
    hide Follow, Hits, Concat, OnTrack;
    if |p| <= size + 1 {
      forall chunks | Frames(chunks)
        ensures Follow(p, size, chunks).hits == Hits(Concat(chunks), p, 0)
      {
        FollowStaysOnTrack(p, size, chunks);
      }
    } else {
      TooLongIsMissed(p, size);
    }
  }

  /** Matches of a regular expression lie inside the buffer. */
  ghost predicate InBounds(re: Option<Regex>) {
    re.Some? ==> forall b :: re.value(b).Found? ==> re.value(b).start <= re.value(b).end <= |b|
  }

  /** On no buffer is an empty match at its very end the first. */
  ghost predicate NoEmptyMatchAtEnd(re: Option<Regex>, substr: seq<byte>) {
    forall b: seq<byte> :: FirstMatch(b, re, substr) != Found(|b|, |b|)
  }

  ghost predicate NeverPanics(re: Option<Regex>, substr: seq<byte>) {
    forall w :: Drain(re, substr, w).Quiet?
  }

  lemma MatchInBounds(buf: seq<byte>, re: Option<Regex>, substr: seq<byte>)
    requires InBounds(re)
    ensures var m := FirstMatch(buf, re, substr);
            m.Found? ==> m.start <= m.end <= |buf|
  {
  }

  lemma {:induction false} DrainIsQuiet(re: Option<Regex>, substr: seq<byte>, w: Window)
    requires InBounds(re) && NoEmptyMatchAtEnd(re, substr)
    ensures Drain(re, substr, w).Quiet?
    decreases |w.buf|
  {
    var m := FirstMatch(w.buf, re, substr);
    DrainStep(re, substr, w);
    if m.Found? {
      MatchInBounds(w.buf, re, substr);
      assert m != Found(|w.buf|, |w.buf|);
      DrainIsQuiet(re, substr, Past(w, m.start, Resume(m)));
    }
  }

  /** Scanning on after a match runs off the end of some buffer exactly when the pattern can match emptily at an end. */
  lemma PanicsIffEmptyMatchAtEnd(re: Option<Regex>, substr: seq<byte>)
    requires InBounds(re)
    ensures NeverPanics(re, substr) <==> NoEmptyMatchAtEnd(re, substr)
  {
    if NoEmptyMatchAtEnd(re, substr) {
      forall w
        ensures Drain(re, substr, w).Quiet?
      {
        DrainIsQuiet(re, substr, w);
      }
    } else {
      var b: seq<byte> :| FirstMatch(b, re, substr) == Found(|b|, |b|);
      assert Drain(re, substr, Window([], b, 0)).Panicked?;
    }
  }

  datatype Outcome = Waiting | Fired | Crashed

  class Scanner {
    const re: Option<Regex>
    const substr: seq<byte>
    const follow: bool
    var armed: bool
    var buf: seq<byte>
    var base: nat
    var hits: seq<nat>  // the offsets printed so far

    ghost var stream: seq<byte>  // the output received since matching was armed

    /** The window is the end of the stream and no larger than it may be. */
    ghost predicate Valid()
      reads this
    {
      && base <= |stream| && buf == stream[base..]
      && |buf| <= EXPECT_WINDOW
      && (!armed ==> stream == [])
    }

    ghost function State(): Window
      reads this
    {
      Window(hits, buf, base)
    }

    constructor (re: Option<Regex>, substr: seq<byte>, follow: bool, includeScrollback: bool)
      ensures Valid() && State() == Window([], [], 0)
      ensures this.re == re && this.substr == substr && this.follow == follow && armed == includeScrollback
    {
      this.re, this.substr, this.follow := re, substr, follow;
      armed, buf, base, hits := includeScrollback, [], 0, [];
      stream := [];
    }

    /** The end of the scrollback: from here on output is matched. */
    method OnScrollbackEnd() returns (o: Outcome)
      requires Valid()
      modifies this
      ensures armed && stream == old(stream)
      ensures Reports(re, substr, follow, old(State()), o, State())
      ensures o.Waiting? ==> Valid()
    {
      armed := true;
      o := Scan();
    }

    method OnOutput(b: seq<byte>) returns (o: Outcome)
      requires Valid()
      modifies this
      ensures armed == old(armed)
      ensures !armed ==> o.Waiting? && State() == old(State()) && stream == old(stream)
      ensures armed ==> stream == old(stream) + b
                        && Reports(re, substr, follow, old(State()).(buf := old(buf) + b), o, State())
      ensures o.Waiting? ==> Valid()
    {
      if armed {
        stream := stream + b;
        buf := buf + b;
        assert buf == stream[base..];
      }
      o := Scan();
    }

    method Scan() returns (o: Outcome)
      requires base <= |stream| && buf == stream[base..]
      requires !armed ==> Valid()
      modifies `buf, `base, `hits
      ensures !armed ==> o.Waiting? && State() == old(State())
      ensures armed ==> Reports(re, substr, follow, old(State()), o, State())
      ensures o.Waiting? ==> Valid()
    {
      if !armed {
        return Waiting;
      }
      while true
        invariant base <= |stream| && buf == stream[base..]
        invariant Drain(re, substr, State()) == Drain(re, substr, old(State()))
        invariant !follow ==> State() == old(State())
        decreases |buf|
      {
        var m := FirstMatch(buf, re, substr);
        DrainStep(re, substr, State());
        if m.NotFound? {
          break;
        }
        var crashed := Report(m);
        if crashed {
          return Crashed;
        }
        if !follow {
          return Fired;
        }
      }
      CutToWindow();
      return Waiting;
    }

    /** Prints a match and moves past it. */
    method Report(m: Found) returns (crashed: bool)
      requires m.Found? && base <= |stream| && buf == stream[base..]
      modifies `buf, `base, `hits
      ensures crashed <==> Resume(m) > |old(buf)|
      ensures crashed ==> State() == Window(old(hits) + [old(base) + m.start], old(buf), old(base))
      ensures !crashed ==> && State() == Past(old(State()), m.start, Resume(m))
                           && base <= |stream| && buf == stream[base..]
    {
      ghost var w := State();
      hits := hits + [base + m.start];
      var end := m.end;
      if end <= m.start {
        end := m.start + 1;
      }
      if end > |buf| {
        return true;
      }
      WindowBehind(stream, w, m.start, end);
      base := base + end;
      buf := buf[end..];
      return false;
    }

    method CutToWindow()
      requires base <= |stream| && buf == stream[base..]
      modifies `buf, `base
      ensures base <= |stream| && buf == stream[base..]
      ensures State() == Trim(old(State()), EXPECT_WINDOW)
      ensures |buf| == (if |old(buf)| > 262144 then 262144 else |old(buf)|) && hits == old(hits)
    {
      if |buf| > EXPECT_WINDOW {
        var drop := |buf| - EXPECT_WINDOW;
        buf := buf[drop..];
        base := base + drop;
      }
    }
  }

  /** What a scan of the window `w` leads to. */
  predicate Reports(re: Option<Regex>, substr: seq<byte>, follow: bool, w: Window, o: Outcome, after: Window) {
    var m, r := FirstMatch(w.buf, re, substr), Drain(re, substr, w);
    match o
    case Waiting => r.Quiet? && after == Trim(r.w, EXPECT_WINDOW) && (!follow ==> m.NotFound?)
    case Crashed => if follow then r.Panicked? && after == r.w
                    else m.Found? && Resume(m) > |w.buf| && after == r.w
    case Fired => && !follow && m.Found? && Resume(m) <= |w.buf|
                  && after == Past(w, m.start, Resume(m))
  }

  /** A scanner that is armed and gets such a buffer as its first output dies, whether it follows or not. */
  lemma FirstOutputPanics(re: Option<Regex>, substr: seq<byte>, follow: bool, b: seq<byte>, o: Outcome, after: Window)
    requires FirstMatch(b, re, substr) == Found(|b|, |b|)
    requires Reports(re, substr, follow, Window([], [], 0).(buf := [] + b), o, after)
    ensures o.Crashed?
  {
    assert [] + b == b;
    DrainStep(re, substr, Window([], b, 0));
  }

  /** The expression `$`: it matches emptily at the end of every buffer, and nowhere before. */
  function AtTheEnd(b: seq<byte>): Found {
    Found(|b|, |b|)
  }

  /** `ctl expect` with it dies as soon as the scrollback has been sent, before any output. */
  method EndOfTextPanics(substr: seq<byte>, follow: bool) returns (o: Outcome)
    ensures o.Crashed?
  {
    var scanner := new Scanner(Some(AtTheEnd), substr, follow, false);
    o := scanner.OnScrollbackEnd();
    ghost var w := Window([], [], 0);
    assert FirstMatch([], Some(AtTheEnd), substr) == Found(0, 0);
    DrainStep(Some(AtTheEnd), substr, w);
  }

  lemma {:induction false} DrainExtends(re: Option<Regex>, substr: seq<byte>, w: Window)
    ensures w.hits <= Drain(re, substr, w).w.hits
    ensures FirstMatch(w.buf, re, substr).Found? ==>
              w.hits + [w.base + FirstMatch(w.buf, re, substr).start] <= Drain(re, substr, w).w.hits
    decreases |w.buf|
  {
    hide FirstMatch;
    var m := FirstMatch(w.buf, re, substr);
    DrainStep(re, substr, w);
    if m.Found? && Resume(m) <= |w.buf| {
      DrainExtends(re, substr, Past(w, m.start, Resume(m)));
    }
  }

  /**
   A scan reports the first match in its window if there is one, at its offset in the stream, and then in one-shot mode
   it is over; without a match it reports nothing and waits.
   */
  lemma ScanReportsTheFirst(re: Option<Regex>, substr: seq<byte>, follow: bool, w: Window, o: Outcome, after: Window)
    requires Reports(re, substr, follow, w, o, after)
    ensures match FirstMatch(w.buf, re, substr)
            case NotFound => o.Waiting? && after.hits == w.hits
            case Found(start, _) =>
              && w.hits + [w.base + start] <= after.hits
              && (follow ==> !o.Fired?)
              && (!follow ==> !o.Waiting? && after.hits == w.hits + [w.base + start])
  {
    DrainExtends(re, substr, w);
    DrainStep(re, substr, w);
    hide FirstMatch, Drain;
  }

  lemma LiteralNeverPanics(p: seq<byte>)
    requires p != []
    ensures NeverPanics(None, p)
  {
    forall b: seq<byte>
      ensures FirstMatch(b, None, p) != Found(|b|, |b|)
    {
      LiteralMatch(p, b);
    }
    PanicsIffEmptyMatchAtEnd(None, p);
  }

  /** One chunk through the scanner object is one step of the function whose reports are proved exact. */
  lemma ScannerFollows(p: seq<byte>, chunks: seq<seq<byte>>, c: seq<byte>, o: Outcome, after: Window)
    requires p != []
    requires var w := Follow(p, EXPECT_WINDOW, chunks);
             Reports(None, p, true, w.(buf := w.buf + c), o, after)
    ensures o.Waiting? && after == Follow(p, EXPECT_WINDOW, chunks + [c])
  {
    LiteralNeverPanics(p);
    var all := chunks + [c];
    assert all[..|all| - 1] == chunks && all[|all| - 1] == c;
  }
}
