/**
 One session's byte stream as a step system: the read loop, the attach and detach bodies that run under the
 session lock, and the bounded queues they send to (internal/server/session.go, internal/server/server.go,
 internal/server/raw.go, pkg/ptysession/session.go).

 A step is one critical section or, while the lock is held, one send. Steps of different threads may
 follow one another in any order the lock allows: while one thread fans out or replays, queues go on being
 drained, closed, and filled with other messages.
 */
module Fanout {
  import opened Bytes
  import Scorc

  const RING_SIZE: nat := 256 * 1024
  const PTY_CHUNK: nat := 32 * 1024
  const OUTBOUND_QUEUE: nat := 256
  const RAW_QUEUE: nat := 64

  /**
   Messages to a subscriber. The last three are not part of the session's output stream; `Reply` stands for whatever else
   shares the queue: answers to requests, and messages of other sessions.
   */
  datatype Frame = Output(data: seq<byte>) | ScrollbackEnd | Exit(code: int) | Closed | Reply

  predicate Streamed(f: Frame) {
    f.Output? || f.ScrollbackEnd?
  }

  /**
   The queue of one connection: everything its channel ever accepted, how much of that the writer has taken,
   whether the connection is shut down, and how many frames of the session's stream found the channel full.
   */
  datatype Queue = Queue(raw: bool, log: seq<Frame>, taken: nat, done: bool, lost: nat) {
    function Capacity(): nat {
      if raw then RAW_QUEUE else OUTBOUND_QUEUE
    }

    predicate Bounded() {
      taken <= |log| <= taken + Capacity()
    }

    predicate Room() {
      |log| < taken + Capacity()
    }

    /** The select of send and enqueue; `pick` is the choice between two cases that are both ready. */
    function Send(f: Frame, pick: bool): Queue {
      if Room() && (!done || pick) then this.(log := log + [f])
      else if done then this
      else this.(lost := lost + if Streamed(f) then 1 else 0)
    }
  }

  /** The session lock and what its holder still has to send. */
  datatype Lock<C> = Free | Sending(chunk: seq<byte>, todo: set<C>) | Replaying(who: C, left: seq<Frame>)

  /** Where the latest attach began: in the queue's log, in the session's history, in its count of losses. */
  datatype Mark = Mark(start: nat, seen: nat, lost: nat)

  datatype State<C> = State(
    emulated: bool,             // false for a raw session, which has no emulator
    history: seq<byte>,         // every byte read from the PTY
    ring: seq<byte>,            // what a snapshot would return
    fed: seq<byte>,             // every byte written to the emulator
    pending: seq<byte>,         // what the rewriter holds back
    subs: map<C, Queue>,
    attached: set<C>,
    lock: Lock<C>,
    marks: map<C, Mark>)

  function Init<C>(emulated: bool): State<C> {
    State(emulated, [], [], [], [], map[], {}, Free, map[])
  }

  datatype Step<C> =
    | Connect(c: C, raw: bool)
    | Read(chunk: seq<byte>)
    | SendLive(c: C, pick: bool)
    | EndFanout
    | Attach(c: C)
    | SendReplay(pick: bool)
    | EndReplay
    | Detach(c: C)
    | Clear
    | Foreign(c: C, f: Frame, pick: bool)
    | Drain(c: C)
    | Close(c: C)

  /** The scrollback of a framed attach, in output frames of at most PTY_CHUNK bytes. */
  function Chunks(s: seq<byte>): (fs: seq<Frame>) {
    if s == [] then []
    else if |s| <= PTY_CHUNK then [Output(s)]
    else [Output(s[..PTY_CHUNK])] + Chunks(s[PTY_CHUNK..])
  }

  function ReplayFrames(raw: bool, snapshot: seq<byte>): seq<Frame> {
    if raw then (if snapshot == [] then [] else [Output(snapshot)])
    else Chunks(snapshot) + [ScrollbackEnd]
  }

  predicate Enabled<C(==)>(s: State<C>, st: Step<C>) {
    match st
    case Connect(c, _) => c !in s.subs
    case Read(chunk) => s.lock.Free? && chunk != []
    case SendLive(c, _) => s.lock.Sending? && c in s.lock.todo && c in s.subs
    case EndFanout => s.lock.Sending? && s.lock.todo == {}
    case Attach(c) => s.lock.Free? && c in s.subs
    case SendReplay(_) => s.lock.Replaying? && s.lock.left != [] && s.lock.who in s.subs
    case EndReplay => s.lock.Replaying? && s.lock.left == []
    case Detach(_) => s.lock.Free?
    case Clear => s.lock.Free?
    case Foreign(c, f, _) => c in s.subs && !Streamed(f)
    case Drain(c) => c in s.subs && s.subs[c].taken < |s.subs[c].log|
    case Close(c) => c in s.subs
  }

  function Apply<C(==)>(s: State<C>, st: Step<C>): State<C>
    requires Enabled(s, st)
  {
    match st
    case Connect(c, raw) => s.(subs := s.subs[c := Queue(raw, [], 0, false, 0)])
    case Read(chunk) =>
      s.(history := s.history + chunk,
         ring := Last(s.ring + chunk, RING_SIZE),
         fed := if s.emulated then s.fed + Scorc.Rewritten(s.pending + chunk) else s.fed,
         pending := if s.emulated then Scorc.Held(s.pending + chunk) else s.pending,
         lock := Sending(chunk, s.attached))
    case SendLive(c, pick) =>
      s.(subs := s.subs[c := s.subs[c].Send(Output(s.lock.chunk), pick)],
         lock := Sending(s.lock.chunk, s.lock.todo - {c}))
    case EndFanout => s.(lock := Free)
    case Attach(c) =>
      var q := s.subs[c];
      s.(attached := s.attached + {c},
         marks := s.marks[c := Mark(|q.log|, |s.history|, q.lost)],
         lock := Replaying(c, ReplayFrames(q.raw, s.ring)))
    case SendReplay(pick) =>
      var c := s.lock.who;
      s.(subs := s.subs[c := s.subs[c].Send(s.lock.left[0], pick)],
         lock := Replaying(c, s.lock.left[1..]))
    case EndReplay => s.(lock := Free)
    case Detach(c) => s.(attached := s.attached - {c})
    case Clear => s.(attached := {})
    case Foreign(c, f, pick) => s.(subs := s.subs[c := s.subs[c].Send(f, pick)])
    case Drain(c) => s.(subs := s.subs[c := s.subs[c].(taken := s.subs[c].taken + 1)])
    case Close(c) => s.(subs := s.subs[c := s.subs[c].(done := true)])
  }

  predicate Allowed<C(==)>(s: State<C>, run: seq<Step<C>>)
    decreases |run|
  {
    run == [] || (Enabled(s, run[0]) && Allowed(Apply(s, run[0]), run[1..]))
  }

  function Exec<C(==)>(s: State<C>, run: seq<Step<C>>): State<C>
    requires Allowed(s, run)
    decreases |run|
  {
    if run == [] then s else Exec(Apply(s, run[0]), run[1..])
  }

  // ----- What a queue has received since a mark -----

  /** The frames of the session's output stream. */
  function Own(fs: seq<Frame>): seq<Frame> {
    if fs == [] then []
    else
      var front, f := Own(fs[..|fs| - 1]), fs[|fs| - 1];
      if Streamed(f) then front + [f] else front
  }

  function Since(q: Queue, m: Mark): seq<Frame> {
    if m.start <= |q.log| then Own(q.log[m.start..]) else []
  }

  lemma SinceSnoc(q: Queue, m: Mark, f: Frame)
    requires m.start <= |q.log|
    ensures Since(q.(log := q.log + [f]), m) == if Streamed(f) then Since(q, m) + [f] else Since(q, m)
  {
    var tail := (q.log + [f])[m.start..];
    assert tail == q.log[m.start..] + [f];
    assert tail[..|tail| - 1] == q.log[m.start..];
  }

  /** Neither lost a frame of the stream nor shut down since the mark. */
  predicate Clean(q: Queue, m: Mark) {
    !q.done && q.lost == m.lost
  }

  lemma CleanSend(q: Queue, m: Mark, f: Frame, pick: bool)
    requires m.start <= |q.log| && m.lost <= q.lost
    ensures var q' := q.Send(f, pick);
            && m.start <= |q'.log| && m.lost <= q'.lost && q'.raw == q.raw
            && (Clean(q', m) ==>
                  && Clean(q, m)
                  && Since(q', m) == if Streamed(f) then Since(q, m) + [f] else Since(q, m))
  {
    SinceSnoc(q, m, f);
  }

  function Payload(fs: seq<Frame>): seq<byte> {
    if fs == [] then []
    else
      var front, f := Payload(fs[..|fs| - 1]), fs[|fs| - 1];
      if f.Output? then front + f.data else front
  }

  lemma PayloadSnoc(fs: seq<Frame>, f: Frame)
    ensures Payload(fs + [f]) == if f.Output? then Payload(fs) + f.data else Payload(fs)
  {
    assert (fs + [f])[..|fs|] == fs;
  }

  lemma {:induction false} PayloadSplit(a: seq<Frame>, b: seq<Frame>)
    ensures Payload(a + b) == Payload(a) + Payload(b)
  {
    if b == [] {
      assert a + b == a;
    } else {
      var front, f := b[..|b| - 1], b[|b| - 1];
      assert b == front + [f];
      Associative(a, front, [f]);
      PayloadSnoc(a + front, f);
      PayloadSnoc(front, f);
      PayloadSplit(a, front);
      Associative(Payload(a), Payload(front), if f.Output? then f.data else []);
    }
  }

  predicate AllOutput(fs: seq<Frame>) {
    forall f :: f in fs ==> f.Output?
  }

  /** The replay that an attach after the history `h` gets. */
  function Replay(raw: bool, h: seq<byte>): seq<Frame> {
    ReplayFrames(raw, Last(h, RING_SIZE))
  }

  /** `own` is the replay of the first `seen` bytes of `h`, and then live frames with what followed up to `cut`. */
  predicate Tracks(raw: bool, own: seq<Frame>, h: seq<byte>, seen: nat, cut: nat) {
    && seen <= cut <= |h|
    && var r := Replay(raw, h[..seen]);
       && r <= own
       && AllOutput(own[|r|..])
       && Payload(own[|r|..]) == h[seen..cut]
  }

  lemma TracksRead(raw: bool, own: seq<Frame>, h: seq<byte>, seen: nat, chunk: seq<byte>)
    requires Tracks(raw, own, h, seen, |h|)
    ensures Tracks(raw, own, h + chunk, seen, |h|)
  {
    assert (h + chunk)[..seen] == h[..seen];
    assert (h + chunk)[seen..|h|] == h[seen..|h|];
  }

  lemma LiveSnoc(own: seq<Frame>, n: nat, f: Frame)
    requires n <= |own|
    ensures (own + [f])[..n] == own[..n]
    ensures (own + [f])[n..] == own[n..] + [f]
  {
  }

  lemma LastChunk(h: seq<byte>, seen: nat, cut: nat, chunk: seq<byte>)
    requires EndsWith(h, chunk) && seen <= cut && cut + |chunk| == |h|
    ensures h[seen..|h|] == h[seen..cut] + chunk
  {
  }

  lemma TracksSend(raw: bool, own: seq<Frame>, h: seq<byte>, seen: nat, cut: nat, chunk: seq<byte>)
    requires EndsWith(h, chunk) && cut + |chunk| == |h|
    requires Tracks(raw, own, h, seen, cut)
    ensures Tracks(raw, own + [Output(chunk)], h, seen, |h|)
  {
    var r := Replay(raw, h[..seen]);
    var live := own[|r|..];
    LiveSnoc(own, |r|, Output(chunk));
    PayloadSnoc(live, Output(chunk));
    LastChunk(h, seen, cut, chunk);
  }

  lemma TracksReplay(raw: bool, own: seq<Frame>, h: seq<byte>)
    requires own == Replay(raw, h)
    ensures Tracks(raw, own, h, |h|, |h|)
  {
    assert h[..|h|] == h;
    assert own[|own|..] == [];
  }

  // ----- The invariant -----

  predicate AllStreamed(fs: seq<Frame>) {
    forall f :: f in fs ==> Streamed(f)
  }

  lemma {:induction false} ReplayIsStreamed(raw: bool, snapshot: seq<byte>)
    ensures AllStreamed(ReplayFrames(raw, snapshot))
  {
    ChunksAreOutput(snapshot);
  }

  lemma {:induction false} ChunksAreOutput(s: seq<byte>)
    ensures AllOutput(Chunks(s))
    decreases |s|
  {
    if |s| > PTY_CHUNK {
      ChunksAreOutput(s[PTY_CHUNK..]);
    }
  }

  /** Ring and emulator show the same history. */
  ghost predicate ViewsAgree<C>(s: State<C>) {
    && s.ring == Last(s.history, RING_SIZE)
    && (s.emulated ==> s.fed == Scorc.Rewritten(s.history) && s.pending == Scorc.Held(s.history))
    && (!s.emulated ==> s.fed == [] && s.pending == [])
  }

  ghost predicate LockSound<C>(s: State<C>) {
    && s.attached <= s.subs.Keys
    && s.attached <= s.marks.Keys
    && (s.lock.Sending? ==> s.lock.todo <= s.attached && EndsWith(s.history, s.lock.chunk))
    && (s.lock.Replaying? ==> s.lock.who in s.attached && AllStreamed(s.lock.left))
  }

  ghost predicate Marked<C>(s: State<C>, c: C)
    requires c in s.subs && c in s.marks
  {
    && s.subs[c].Bounded()
    && s.marks[c].start <= |s.subs[c].log|
    && s.marks[c].lost <= s.subs[c].lost
    && s.marks[c].seen <= |s.history|
  }

  /** How far into the history the live frames to `c` reach. */
  function Cut<C(==)>(s: State<C>, c: C): int {
    if s.lock.Sending? && c in s.lock.todo then |s.history| - |s.lock.chunk| else |s.history|
  }

  /** The stream that an attached subscriber has received, if it lost none of it since it attached. */
  ghost predicate Follows<C>(s: State<C>, c: C)
    requires c in s.subs && c in s.marks && LockSound(s)
  {
    var q, m := s.subs[c], s.marks[c];
    Clean(q, m) ==>
      if s.lock.Replaying? && s.lock.who == c then
        m.seen == |s.history| && Since(q, m) + s.lock.left == Replay(q.raw, s.history)
      else
        Tracks(q.raw, Since(q, m), s.history, m.seen, Cut(s, c))
  }

  ghost predicate Inv<C>(s: State<C>) {
    && ViewsAgree(s)
    && LockSound(s)
    && (forall c :: c in s.subs ==> s.subs[c].Bounded())
    && (forall c :: c in s.attached ==> Marked(s, c) && Follows(s, c))
  }

  lemma InitInv<C>(emulated: bool)
    ensures Inv(Init<C>(emulated))
  {
    Scorc.TokensCover([]);
  }

  lemma ReadKeepsViews<C>(s: State<C>, chunk: seq<byte>)
    requires ViewsAgree(s) && s.lock.Free? && chunk != []
    ensures ViewsAgree(Apply(s, Read(chunk)))
  {
    LastOfLast(s.history, chunk, RING_SIZE);
    Scorc.ChunkInvariance(s.history, chunk);
  }

  lemma ReadKeepsFollowing<C>(s: State<C>, chunk: seq<byte>, c: C)
    requires LockSound(s) && s.lock.Free? && chunk != []
    requires c in s.attached && Marked(s, c) && Follows(s, c)
    ensures var s' := Apply(s, Read(chunk));
            LockSound(s') && Marked(s', c) && Follows(s', c)
  {
    var q, m := s.subs[c], s.marks[c];
    if Clean(q, m) {
      TracksRead(q.raw, Since(q, m), s.history, m.seen, chunk);
    }
  }

  lemma SendLiveKeepsFollowing<C>(s: State<C>, c: C, pick: bool, d: C)
    requires LockSound(s) && Enabled(s, SendLive(c, pick))
    requires d in s.attached && Marked(s, d) && Follows(s, d)
    ensures var s' := Apply(s, SendLive(c, pick));
            LockSound(s') && Marked(s', d) && Follows(s', d)
  {
    var q, m := s.subs[d], s.marks[d];
    if d == c {
      CleanSend(q, m, Output(s.lock.chunk), pick);
      if Clean(q.Send(Output(s.lock.chunk), pick), m) {
        TracksSend(q.raw, Since(q, m), s.history, m.seen, Cut(s, d), s.lock.chunk);
      }
    }
  }

  lemma AttachKeepsFollowing<C>(s: State<C>, c: C, d: C)
    requires ViewsAgree(s) && LockSound(s) && Enabled(s, Attach(c)) && s.subs[c].Bounded()
    requires d in s.attached ==> Marked(s, d) && Follows(s, d)
    requires d in s.attached || d == c
    ensures var s' := Apply(s, Attach(c));
            LockSound(s') && Marked(s', d) && Follows(s', d)
  {
    ReplayIsStreamed(s.subs[c].raw, s.ring);
    if d == c {
      var q := s.subs[c];
      assert q.log[|q.log|..] == [];
    }
  }

  lemma SendReplayKeepsFollowing<C>(s: State<C>, pick: bool, d: C)
    requires LockSound(s) && Enabled(s, SendReplay(pick))
    requires d in s.attached && Marked(s, d) && Follows(s, d)
    ensures var s' := Apply(s, SendReplay(pick));
            LockSound(s') && Marked(s', d) && Follows(s', d)
  {
    var q, m, left := s.subs[d], s.marks[d], s.lock.left;
    if d == s.lock.who {
      CleanSend(q, m, left[0], pick);
      assert (Since(q, m) + [left[0]]) + left[1..] == Since(q, m) + left;
    }
  }

  lemma EndReplayKeepsFollowing<C>(s: State<C>, d: C)
    requires LockSound(s) && Enabled(s, EndReplay)
    requires d in s.attached && Marked(s, d) && Follows(s, d)
    ensures var s' := Apply(s, EndReplay);
            LockSound(s') && Marked(s', d) && Follows(s', d)
  {
    var q, m := s.subs[d], s.marks[d];
    if d == s.lock.who && Clean(q, m) {
      assert Since(q, m) + [] == Since(q, m);
      TracksReplay(q.raw, Since(q, m), s.history);
    }
  }

  lemma ForeignKeepsFollowing<C>(s: State<C>, c: C, f: Frame, pick: bool, d: C)
    requires LockSound(s) && Enabled(s, Foreign(c, f, pick))
    requires d in s.attached && Marked(s, d) && Follows(s, d)
    ensures var s' := Apply(s, Foreign(c, f, pick));
            LockSound(s') && Marked(s', d) && Follows(s', d)
  {
    if d == c {
      CleanSend(s.subs[d], s.marks[d], f, pick);
    }
  }

  /** Steps that touch nobody's stream: others leave the attached set, or a queue is drained or shut. */
  lemma QuietStepKeepsFollowing<C>(s: State<C>, st: Step<C>, d: C)
    requires LockSound(s) && Enabled(s, st)
    requires st.Connect? || st.EndFanout? || st.Detach? || st.Clear? || st.Drain? || st.Close?
    requires d in s.attached && Marked(s, d) && Follows(s, d)
    ensures var s' := Apply(s, st);
            LockSound(s') && (d in s'.attached ==> Marked(s', d) && Follows(s', d))
  {
  }

  lemma StepKeepsLockSound<C>(s: State<C>, st: Step<C>)
    requires LockSound(s) && Enabled(s, st)
    ensures LockSound(Apply(s, st))
  {
    if st.Attach? {
      ReplayIsStreamed(s.subs[st.c].raw, s.ring);
    }
  }

  lemma StepKeepsBounds<C>(s: State<C>, st: Step<C>, d: C)
    requires Enabled(s, st)
    requires d in s.subs ==> s.subs[d].Bounded()
    ensures d in Apply(s, st).subs ==> Apply(s, st).subs[d].Bounded()
  {
  }

  lemma StepKeepsFollowing<C>(s: State<C>, st: Step<C>, d: C)
    requires ViewsAgree(s) && LockSound(s) && Enabled(s, st)
    requires forall c :: c in s.subs ==> s.subs[c].Bounded()
    requires d in s.attached ==> Marked(s, d) && Follows(s, d)
    requires d in Apply(s, st).attached
    ensures LockSound(Apply(s, st)) && Marked(Apply(s, st), d) && Follows(Apply(s, st), d)
  {
    match st
    case Read(chunk) => ReadKeepsFollowing(s, chunk, d);
    case SendLive(c, pick) => SendLiveKeepsFollowing(s, c, pick, d);
    case Attach(c) => AttachKeepsFollowing(s, c, d);
    case SendReplay(pick) => SendReplayKeepsFollowing(s, pick, d);
    case EndReplay => EndReplayKeepsFollowing(s, d);
    case Foreign(c, f, pick) => ForeignKeepsFollowing(s, c, f, pick, d);
    case Connect(_, _) => QuietStepKeepsFollowing(s, st, d);
    case EndFanout => QuietStepKeepsFollowing(s, st, d);
    case Detach(_) => QuietStepKeepsFollowing(s, st, d);
    case Clear => QuietStepKeepsFollowing(s, st, d);
    case Drain(_) => QuietStepKeepsFollowing(s, st, d);
    case Close(_) => QuietStepKeepsFollowing(s, st, d);
  }

  lemma StepKeepsViews<C>(s: State<C>, st: Step<C>)
    requires ViewsAgree(s) && Enabled(s, st)
    ensures ViewsAgree(Apply(s, st))
  {
    if st.Read? {
      ReadKeepsViews(s, st.chunk);
    }
  }

  /** Every step keeps the invariant. */
  lemma {:induction false} StepKeepsInv<C>(s: State<C>, st: Step<C>)
    requires Inv(s) && Enabled(s, st)
    ensures Inv(Apply(s, st))
  {
    StepKeepsViews(s, st);
    StepKeepsLockSound(s, st);
    forall d | d in Apply(s, st).subs
      ensures Apply(s, st).subs[d].Bounded()
    {
      StepKeepsBounds(s, st, d);
    }
    forall d | d in Apply(s, st).attached
      ensures Marked(Apply(s, st), d) && Follows(Apply(s, st), d)
    {
      StepKeepsFollowing(s, st, d);
    }
  }

  lemma {:induction false} RunKeepsInv<C>(s: State<C>, run: seq<Step<C>>)
    requires Inv(s) && Allowed(s, run)
    ensures Inv(Exec(s, run))
    decreases |run|
  {
    if run != [] {
      StepKeepsInv(s, run[0]);
      RunKeepsInv(Apply(s, run[0]), run[1..]);
    }
  }

  // ----- What the invariant means to a subscriber -----

  predicate FramesInBounds(fs: seq<Frame>) {
    forall f :: f in fs ==> f.Output? && 0 < |f.data| <= PTY_CHUNK
  }

  lemma OneFrame(s: seq<byte>)
    ensures Payload([Output(s)]) == s
  {
    PayloadSnoc([], Output(s));
    assert [] + [Output(s)] == [Output(s)];
  }

  lemma {:induction false} ChunksPayload(s: seq<byte>)
    ensures Payload(Chunks(s)) == s
    decreases |s|
  {
    if s == [] {
    } else if |s| <= PTY_CHUNK {
      OneFrame(s);
    } else {
      var first, rest := s[..PTY_CHUNK], s[PTY_CHUNK..];
      ChunksPayload(rest);
      OneFrame(first);
      PayloadSplit([Output(first)], Chunks(rest));
      assert s == first + rest;
    }
  }

  lemma {:induction false} ChunksCount(s: seq<byte>)
    ensures FramesInBounds(Chunks(s))
    ensures |s| <= |Chunks(s)| * PTY_CHUNK < |s| + PTY_CHUNK
    decreases |s|
  {
    if |s| > PTY_CHUNK {
      ChunksCount(s[PTY_CHUNK..]);
    }
  }

  /** Cutting the scrollback into frames loses nothing, and makes one frame per started PTY_CHUNK bytes, at most 8. */
  lemma ChunksPartition(s: seq<byte>)
    ensures Payload(Chunks(s)) == s
    ensures forall f :: f in Chunks(s) ==> f.Output? && 0 < |f.data| <= 32768
    ensures |s| <= |Chunks(s)| * 32768 < |s| + 32768
    ensures |s| <= 262144 ==> |Chunks(s)| <= 8
  {
    ChunksPayload(s);
    ChunksCount(s);
  }

  /** One marker, replay before it, live output behind it. */
  predicate ReplayThenLive(fs: seq<Frame>, k: nat, replay: seq<byte>, live: seq<byte>) {
    && k < |fs| && fs[k] == ScrollbackEnd
    && AllOutput(fs[..k]) && Payload(fs[..k]) == replay
    && AllOutput(fs[k + 1..]) && Payload(fs[k + 1..]) == live
  }

  lemma TracksMeans(raw: bool, own: seq<Frame>, h: seq<byte>, seen: nat, cut: nat)
    requires Tracks(raw, own, h, seen, cut)
    ensures !raw ==> ReplayThenLive(own, |Chunks(Last(h[..seen], RING_SIZE))|, Last(h[..seen], RING_SIZE), h[seen..cut])
    ensures raw ==> AllOutput(own) && Payload(own) == Last(h[..seen], RING_SIZE) + h[seen..cut]
  {
    var snapshot := Last(h[..seen], RING_SIZE);
    var r := ReplayFrames(raw, snapshot);
    if raw {
      RawReplay(snapshot);
      PayloadSplit(r, own[|r|..]);
      assert own == r + own[|r|..];
    } else {
      ChunksPartition(snapshot);
      FramedReplay(own, Chunks(snapshot));
    }
  }

  lemma RawReplay(snapshot: seq<byte>)
    ensures AllOutput(ReplayFrames(true, snapshot))
    ensures Payload(ReplayFrames(true, snapshot)) == snapshot
  {
    PayloadSnoc([], Output(snapshot));
    assert [] + [Output(snapshot)] == [Output(snapshot)];
  }

  lemma FramedReplay(own: seq<Frame>, frames: seq<Frame>)
    requires frames + [ScrollbackEnd] <= own
    ensures own[..|frames|] == frames && own[|frames|] == ScrollbackEnd
  {
    assert own[|frames|] == (frames + [ScrollbackEnd])[|frames|];
  }

  /** The stream a subscriber should have seen: the scrollback when it attached, and everything since. */
  function Expected(h: seq<byte>, seen: nat, cut: nat): seq<byte>
    requires seen <= cut <= |h|
  {
    Last(h[..seen], RING_SIZE) + h[seen..cut]
  }

  /**
   In every run, a subscriber that lost no frame of the stream since it attached has received the scrollback of that moment and
   then every byte read since, without gap or repetition; a framed one has exactly one marker in between. While
   its own replay is being sent, what is still to be sent completes it.
   */
  lemma ReplayGuarantee<C>(emulated: bool, run: seq<Step<C>>, c: C)
    requires Allowed(Init(emulated), run)
    requires c in Exec(Init(emulated), run).attached
    ensures var s := Exec(Init(emulated), run);
            && c in s.subs && c in s.marks
            && var q, m, cut := s.subs[c], s.marks[c], Cut(s, c);
               !q.done && q.lost == m.lost ==>
                 if s.lock.Replaying? && s.lock.who == c then
                   Since(q, m) + s.lock.left == ReplayFrames(q.raw, Last(s.history, RING_SIZE))
                 else
                   && m.seen <= cut <= |s.history|
                   && (!q.raw ==> exists k :: ReplayThenLive(Since(q, m), k, Last(s.history[..m.seen], RING_SIZE),
                                                             s.history[m.seen..cut]))
                   && (q.raw ==> AllOutput(Since(q, m)) && Payload(Since(q, m)) == Expected(s.history, m.seen, cut))
  {
    InitInv<C>(emulated);
    RunKeepsInv(Init(emulated), run);
    var s := Exec(Init(emulated), run);
    assert Marked(s, c) && Follows(s, c);
    var q, m := s.subs[c], s.marks[c];
    if Clean(q, m) && !(s.lock.Replaying? && s.lock.who == c) {
      TracksMeans(q.raw, Since(q, m), s.history, m.seen, Cut(s, c));
    }
  }

  /** Ring and emulator show one and the same history after every run; no queue is ever over-full. */
  lemma ThreeViews<C>(emulated: bool, run: seq<Step<C>>)
    requires Allowed(Init(emulated), run)
    ensures var s := Exec(Init(emulated), run);
            && s.ring == Last(s.history, 262144)
            && (emulated ==> s.fed == Scorc.Rewritten(s.history) && s.pending == Scorc.Held(s.history))
            && (forall c :: c in s.subs ==>
                  0 <= |s.subs[c].log| - s.subs[c].taken <= if s.subs[c].raw then 64 else 256)
  {
    InitInv<C>(emulated);
    RunKeepsInv(Init(emulated), run);
    EmulatedStays(Init<C>(emulated), run);
  }

  lemma {:induction false} EmulatedStays<C>(s: State<C>, run: seq<Step<C>>)
    requires Allowed(s, run)
    ensures Exec(s, run).emulated == s.emulated
    decreases |run|
  {
    if run != [] {
      EmulatedStays(Apply(s, run[0]), run[1..]);
    }
  }

  /** An uninterrupted series of sends, with the choices its selects make. */
  function SendAll(q: Queue, fs: seq<Frame>, picks: seq<bool>): Queue
    requires |picks| == |fs|
    decreases |fs|
  {
    if fs == [] then q else SendAll(q.Send(fs[0], picks[0]), fs[1..], picks[1..])
  }

  lemma {:induction false} RoomForAll(q: Queue, fs: seq<Frame>, picks: seq<bool>)
    requires |picks| == |fs| && |q.log| + |fs| <= q.taken + q.Capacity()
    requires !q.done || forall p :: p in picks ==> p
    ensures SendAll(q, fs, picks) == q.(log := q.log + fs)
    decreases |fs|
  {
    if fs == [] {
      assert q.log + fs == q.log;
    } else {
      var next := q.Send(fs[0], picks[0]);
      assert picks[0] in picks && forall p :: p in picks[1..] ==> p in picks;
      RoomForAll(next, fs[1..], picks[1..]);
      assert (q.log + [fs[0]]) + fs[1..] == q.log + fs;
    }
  }

  /** With ten free places the answer to an attach and its whole replay fit, however full the scrollback is. */
  lemma AttachFits(q: Queue, h: seq<byte>, picks: seq<bool>)
    requires !q.raw && |q.log| + 10 <= q.taken + 256
    requires |picks| == |[Reply] + Replay(false, h)|
    requires !q.done || forall p :: p in picks ==> p
    ensures var fs := [Reply] + Replay(false, h);
            SendAll(q, fs, picks) == q.(log := q.log + fs)
  {
    var snapshot := Last(h, RING_SIZE);
    ChunksPartition(snapshot);
    RoomForAll(q, [Reply] + Replay(false, h), picks);
  }

  // ----- What a step does to a queue -----

  /** The step sends something to `c`. */
  predicate SendsTo<C(==)>(s: State<C>, st: Step<C>, c: C) {
    match st
    case SendLive(d, _) => d == c
    case SendReplay(_) => s.lock.Replaying? && s.lock.who == c
    case Foreign(d, _, _) => d == c
    case _ => false
  }

  /** What it sends. */
  function FrameOf<C(==)>(s: State<C>, st: Step<C>, c: C): Frame
    requires Enabled(s, st) && SendsTo(s, st, c)
  {
    match st
    case SendLive(_, _) => Output(s.lock.chunk)
    case SendReplay(_) => s.lock.left[0]
    case Foreign(_, f, _) => f
  }

  /**
   In every run: a frame that is sent is the last in the queue, unless 64 or 256 others wait there or the subscriber is
   shut down, and it is lost only if they do. Nothing else puts a frame into a queue, or counts one as lost; only the
   writer takes one out.
   */
  lemma SendsArrive<C>(emulated: bool, run: seq<Step<C>>, st: Step<C>, c: C)
    requires Allowed(Init(emulated), run) && Enabled(Exec(Init(emulated), run), st)
    requires c in Exec(Init(emulated), run).subs
    ensures var s := Exec(Init(emulated), run);
            && c in Apply(s, st).subs
            && var q, q' := s.subs[c], Apply(s, st).subs[c];
               && q'.raw == q.raw && (q'.done <==> q.done || st == Close(c))
               && q'.taken == q.taken + (if st == Drain(c) then 1 else 0)
               && var full := |q.log| - q.taken == if q.raw then 64 else 256;
               if !SendsTo(s, st, c) then q'.log == q.log && q'.lost == q.lost
               else
                 var f := FrameOf(s, st, c);
                 && (!full && !q.done ==> q'.log == q.log + [f] && q'.lost == q.lost)
                 && (full && !q.done ==> q'.log == q.log && q'.lost == q.lost + if Streamed(f) then 1 else 0)
                 && (full && q.done ==> q' == q)
                 && (!full && q.done ==> q'.log in {q.log, q.log + [f]} && q'.lost == q.lost)
  {
    InitInv<C>(emulated);
    RunKeepsInv(Init<C>(emulated), run);
    hide Allowed, Exec, ViewsAgree, LockSound, Scorc.Rewritten, Scorc.Held, Chunks;
    assert Exec(Init(emulated), run).subs[c].Bounded();
  }

  /** The chunks read in a run. */
  function Reads<C>(run: seq<Step<C>>): seq<seq<byte>> {
    if run == [] then []
    else (if run[0].Read? then [run[0].chunk] else []) + Reads(run[1..])
  }

  lemma StepReads<C>(s: State<C>, st: Step<C>)
    requires Enabled(s, st)
    ensures Apply(s, st).history == s.history + if st.Read? then st.chunk else []
  {
  }

  lemma ReadsOfRun<C>(st: Step<C>, rest: seq<Step<C>>)
    ensures Concat(Reads([st] + rest)) == (if st.Read? then st.chunk else []) + Concat(Reads(rest))
  {
    assert ([st] + rest)[1..] == rest;
    if st.Read? {
      assert ([st.chunk] + Reads(rest))[1..] == Reads(rest);
    } else {
      assert [] + Reads(rest) == Reads(rest);
    }
  }

  /** The history is all that was read, in order. */
  lemma {:induction false} HistoryIsAllReads<C>(s: State<C>, run: seq<Step<C>>)
    requires Allowed(s, run)
    ensures Exec(s, run).history == s.history + Concat(Reads(run))
    decreases |run|
  {
    hide Apply, Enabled;
    if run != [] {
      var st, rest := run[0], run[1..];
      StepReads(s, st);
      HistoryIsAllReads(Apply(s, st), rest);
      ReadsOfRun(st, rest);
      assert run == [st] + rest;
      Associative(s.history, if st.Read? then st.chunk else [], Concat(Reads(rest)));
    }
  }

  // ----- The stream is complete exactly if nothing of it was lost -----

  /** What a frame adds to the stream; never nothing, for a frame of the stream. */
  function Size(f: Frame): nat {
    match f
    case Output(data) => |data|
    case ScrollbackEnd => 1
    case _ => 0
  }

  function Weight(fs: seq<Frame>): nat {
    if fs == [] then 0 else Weight(fs[..|fs| - 1]) + Size(fs[|fs| - 1])
  }

  predicate NoneEmpty(fs: seq<Frame>) {
    forall f :: f in fs ==> Size(f) > 0
  }

  lemma {:induction false} WeightSplit(a: seq<Frame>, b: seq<Frame>)
    ensures Weight(a + b) == Weight(a) + Weight(b)
  {
    if b == [] {
      assert a + b == a;
    } else {
      assert (a + b)[..|a + b| - 1] == a + b[..|b| - 1];
      WeightSplit(a, b[..|b| - 1]);
    }
  }

  lemma WeightSnoc(fs: seq<Frame>, f: Frame)
    ensures Weight(fs + [f]) == Weight(fs) + Size(f)
  {
    assert (fs + [f])[..|fs|] == fs;
  }

  lemma WeightHead(fs: seq<Frame>)
    requires fs != []
    ensures Weight(fs) == Size(fs[0]) + Weight(fs[1..])
  {
    assert fs == [fs[0]] + fs[1..];
    WeightSplit([fs[0]], fs[1..]);
    assert [] + [fs[0]] == [fs[0]];
    WeightSnoc([], fs[0]);
  }

  lemma {:induction false} WeightOfOutput(fs: seq<Frame>)
    requires AllOutput(fs)
    ensures Weight(fs) == |Payload(fs)|
  {
    if fs != [] {
      assert fs[|fs| - 1] in fs;
      WeightOfOutput(fs[..|fs| - 1]);
    }
  }

  lemma WeightOfReplay(raw: bool, snapshot: seq<byte>)
    ensures Weight(ReplayFrames(raw, snapshot)) == |snapshot| + if raw then 0 else 1
    ensures NoneEmpty(ReplayFrames(raw, snapshot))
  {
    assert Weight([]) == 0;
    hide Weight, Chunks, Payload;
    if raw {
      WeightSnoc([], Output(snapshot));
      assert [] + [Output(snapshot)] == [Output(snapshot)];
    } else {
      ChunksPartition(snapshot);
      WeightOfOutput(Chunks(snapshot));
      WeightSnoc(Chunks(snapshot), ScrollbackEnd);
    }
  }

  /** The whole stream to a subscriber that attached after `seen` bytes and has got to `cut`. */
  function Whole(raw: bool, seen: nat, cut: int): int {
    (if seen <= RING_SIZE then seen else RING_SIZE) + (if raw then 0 else 1) + cut - seen
  }

  function Left<C>(s: State<C>, c: C): nat {
    if s.lock.Replaying? && s.lock.who == c then Weight(s.lock.left) else 0
  }

  /** What was received and what was lost make no more than what was sent; every loss counts at least one. */
  ghost predicate Accounted<C>(s: State<C>, c: C)
    requires c in s.subs && c in s.marks
  {
    var q, m := s.subs[c], s.marks[c];
    Weight(Since(q, m)) + (q.lost - m.lost) <= Whole(q.raw, m.seen, Cut(s, c)) - Left(s, c)
  }

  ghost predicate Account<C>(s: State<C>)
    requires LockSound(s)
  {
    && (s.lock.Sending? ==> s.lock.chunk != [])
    && (s.lock.Replaying? ==> NoneEmpty(s.lock.left))
    && (forall c :: c in s.attached ==> Accounted(s, c))
  }

  lemma SendIsAccounted(q: Queue, m: Mark, f: Frame, pick: bool)
    requires m.start <= |q.log| && (Streamed(f) ==> Size(f) > 0)
    ensures var q' := q.Send(f, pick);
            Weight(Since(q', m)) + q'.lost <= Weight(Since(q, m)) + q.lost + if Streamed(f) then Size(f) else 0
  {
    SinceSnoc(q, m, f);
    WeightSnoc(Since(q, m), f);
    hide Since, Weight;
  }

  lemma SameLog(q: Queue, q': Queue, m: Mark)
    ensures q'.log == q.log ==> Since(q', m) == Since(q, m)
  {
  }

  lemma OwnSendIsAccounted<C>(s: State<C>, st: Step<C>, c: C)
    requires LockSound(s) && Account(s) && Enabled(s, st)
    requires c in s.attached && Marked(s, c)
    requires (st.SendLive? && st.c == c) || (st.Foreign? && st.c == c) || (st.SendReplay? && s.lock.who == c)
    ensures Accounted(Apply(s, st), c)
  {
    hide Weight, Since;
    var q, m := s.subs[c], s.marks[c];
    match st
    case SendLive(_, pick) => SendIsAccounted(q, m, Output(s.lock.chunk), pick);
    case Foreign(_, f, pick) => SendIsAccounted(q, m, f, pick);
    case SendReplay(pick) =>
      assert s.lock.left[0] in s.lock.left;
      SendIsAccounted(q, m, s.lock.left[0], pick);
      WeightHead(s.lock.left);
  }

  lemma StepKeepsAccounted<C>(s: State<C>, st: Step<C>, c: C)
    requires Inv(s) && Account(s) && Enabled(s, st)
    requires c in Apply(s, st).attached && c in Apply(s, st).subs && c in Apply(s, st).marks
    ensures Accounted(Apply(s, st), c)
  {
    hide Weight, Follows, ViewsAgree, Chunks, Since, Scorc.Rewritten, Scorc.Held;
    if st.Attach? && st.c == c {
      AttachIsAccounted(s, c);
    } else {
      assert c in s.attached && Marked(s, c) && Accounted(s, c);
      if (st.SendLive? && st.c == c) || (st.Foreign? && st.c == c) || (st.SendReplay? && s.lock.who == c) {
        OwnSendIsAccounted(s, st, c);
      } else {
        SameLog(s.subs[c], Apply(s, st).subs[c], s.marks[c]);
      }
    }
  }

  lemma AttachIsAccounted<C>(s: State<C>, c: C)
    requires ViewsAgree(s) && Enabled(s, Attach(c))
    ensures Accounted(Apply(s, Attach(c)), c)
  {
    var q := s.subs[c];
    WeightOfReplay(q.raw, s.ring);
    assert q.log[|q.log|..] == [];
  }

  lemma StepKeepsAccount<C>(s: State<C>, st: Step<C>)
    requires Inv(s) && Account(s) && Enabled(s, st)
    ensures LockSound(Apply(s, st)) && Account(Apply(s, st))
  {
    hide Weight, Follows, Chunks;
    StepKeepsInv(s, st);
    var t := Apply(s, st);
    if st.Attach? {
      WeightOfReplay(s.subs[st.c].raw, s.ring);
    }
    forall c | c in t.attached
      ensures Accounted(t, c)
    {
      StepKeepsAccounted(s, st, c);
    }
    hide Accounted, Inv;
  }

  lemma {:induction false} RunKeepsAccount<C>(s: State<C>, run: seq<Step<C>>)
    requires Inv(s) && Account(s) && Allowed(s, run)
    ensures Inv(Exec(s, run)) && Account(Exec(s, run))
    decreases |run|
  {
    hide Account, Apply, Enabled;
    if run != [] {
      StepKeepsInv(s, run[0]);
      StepKeepsAccount(s, run[0]);
      RunKeepsAccount(Apply(s, run[0]), run[1..]);
    }
  }

  /** The stream since the mark is all it should be: the replay, the marker if framed, and every byte since. */
  ghost predicate Complete(q: Queue, m: Mark, h: seq<byte>)
    requires m.seen <= |h|
  {
    if q.raw then
      AllOutput(Since(q, m)) && Payload(Since(q, m)) == Expected(h, m.seen, |h|)
    else
      exists k: nat :: ReplayThenLive(Since(q, m), k, Last(h[..m.seen], RING_SIZE), h[m.seen..])
  }

  lemma CompleteWeighsAll(q: Queue, m: Mark, h: seq<byte>)
    requires m.seen <= |h| && Complete(q, m, h)
    ensures Weight(Since(q, m)) == Whole(q.raw, m.seen, |h|)
  {
    var fs := Since(q, m);
    hide Since, Weight, Payload;
    if q.raw {
      WeightOfOutput(fs);
    } else {
      var k: nat :| ReplayThenLive(fs, k, Last(h[..m.seen], RING_SIZE), h[m.seen..]);
      assert fs == (fs[..k] + [ScrollbackEnd]) + fs[k + 1..];
      WeightSplit(fs[..k] + [ScrollbackEnd], fs[k + 1..]);
      WeightSnoc(fs[..k], ScrollbackEnd);
      WeightOfOutput(fs[..k]);
      WeightOfOutput(fs[k + 1..]);
    }
  }

  /**
   In every run, whenever the lock is free: an attached subscriber that is not shut down has received its whole stream if
   and only if none of its frames has found the queue full since the attach.
   */
  lemma CompleteIffNothingLost<C>(emulated: bool, run: seq<Step<C>>, c: C)
    requires Allowed(Init(emulated), run)
    requires var s := Exec(Init(emulated), run);
             s.lock.Free? && c in s.attached && (c in s.subs ==> !s.subs[c].done)
    ensures var s := Exec(Init(emulated), run);
            && c in s.subs && c in s.marks && s.marks[c].seen <= |s.history|
            && (Complete(s.subs[c], s.marks[c], s.history) <==> s.subs[c].lost == s.marks[c].lost)
  {
    InitInv<C>(emulated);
    RunKeepsAccount(Init<C>(emulated), run);
    ReplayGuarantee(emulated, run, c);
    hide Allowed, Exec, Since, Weight, ReplayThenLive, ViewsAgree, Follows;
    var s := Exec(Init(emulated), run);
    assert Marked(s, c) && Accounted(s, c);
    if Complete(s.subs[c], s.marks[c], s.history) {
      CompleteWeighsAll(s.subs[c], s.marks[c], s.history);
    }
    assert s.history[s.marks[c].seen..|s.history|] == s.history[s.marks[c].seen..];
  }

  lemma {:induction false} ExpectedIsSuffix(h: seq<byte>, seen: nat)
    requires seen <= |h|
    ensures Expected(h, seen, |h|) == Last(h, (if seen <= RING_SIZE then seen else RING_SIZE) + |h| - seen)
  {
    var before := h[..seen];
    assert h == before + h[seen..];
    if seen > RING_SIZE {
      assert before[seen - RING_SIZE..] + h[seen..] == h[seen - RING_SIZE..];
    }
  }

  lemma PayloadOfReplay(fs: seq<Frame>, k: nat, replay: seq<byte>, live: seq<byte>)
    requires ReplayThenLive(fs, k, replay, live)
    ensures Payload(fs) == replay + live
  {
    assert fs == (fs[..k] + [ScrollbackEnd]) + fs[k + 1..];
    PayloadSplit(fs[..k] + [ScrollbackEnd], fs[k + 1..]);
    PayloadSnoc(fs[..k], ScrollbackEnd);
  }

  /** Attached, nothing lost since, and nobody is sending. */
  predicate UpToDate<C(==)>(s: State<C>, c: C) {
    && c in s.attached && c in s.subs && c in s.marks
    && s.lock.Free? && Clean(s.subs[c], s.marks[c])
  }

  /** The bytes a subscriber has received since its attach. */
  function Received<C>(s: State<C>, c: C): seq<byte>
    requires c in s.subs && c in s.marks
  {
    Payload(Since(s.subs[c], s.marks[c]))
  }

  /** A complete stream is an end piece of the history. */
  lemma CompleteIsSuffix(q: Queue, m: Mark, h: seq<byte>)
    requires m.seen <= |h| && Complete(q, m, h)
    ensures Payload(Since(q, m)) == Last(h, (if m.seen <= RING_SIZE then m.seen else RING_SIZE) + |h| - m.seen)
  {
    ExpectedIsSuffix(h, m.seen);
    hide Since, Payload, ReplayThenLive;
    if !q.raw {
      var k: nat :| ReplayThenLive(Since(q, m), k, Last(h[..m.seen], RING_SIZE), h[m.seen..]);
      PayloadOfReplay(Since(q, m), k, Last(h[..m.seen], RING_SIZE), h[m.seen..]);
    }
  }

  lemma UpToDateIsComplete<C>(emulated: bool, run: seq<Step<C>>, c: C)
    requires Allowed(Init(emulated), run)
    requires UpToDate(Exec(Init(emulated), run), c)
    ensures var s := Exec(Init(emulated), run);
            s.marks[c].seen <= |s.history| && Complete(s.subs[c], s.marks[c], s.history)
  {
    ReplayGuarantee(emulated, run, c);
    hide Allowed, Exec, Since, Payload, ReplayThenLive, AllOutput;
    var s := Exec(Init(emulated), run);
    assert s.history[s.marks[c].seen..|s.history|] == s.history[s.marks[c].seen..];
  }

  /** In every run, what a subscriber that lost nothing has received is an end piece of the history. */
  lemma StreamIsSuffix<C>(emulated: bool, run: seq<Step<C>>, c: C)
    requires Allowed(Init(emulated), run)
    requires UpToDate(Exec(Init(emulated), run), c)
    ensures var s := Exec(Init(emulated), run);
            var seen := s.marks[c].seen;
            seen <= |s.history| &&
            Received(s, c) == Last(s.history, (if seen <= RING_SIZE then seen else RING_SIZE) + |s.history| - seen)
  {
    hide Allowed, Exec, Since, Payload, Complete;
    UpToDateIsComplete(emulated, run, c);
    var s := Exec(Init(emulated), run);
    CompleteIsSuffix(s.subs[c], s.marks[c], s.history);
  }

  /** So of any two of them, at any moment, one has received the end of what the other has. */
  lemma SuffixRelated<C>(emulated: bool, run: seq<Step<C>>, c: C, d: C)
    requires Allowed(Init(emulated), run)
    requires var s := Exec(Init(emulated), run); UpToDate(s, c) && UpToDate(s, d)
    ensures var s := Exec(Init(emulated), run);
            EndsWith(Received(s, c), Received(s, d)) || EndsWith(Received(s, d), Received(s, c))
  {
    hide Allowed, Exec, Received, EndsWith;
    StreamIsSuffix(emulated, run, c);
    StreamIsSuffix(emulated, run, d);
    var s := Exec(Init(emulated), run);
    SuffixesNest(s.history, s.marks[c].seen, s.marks[d].seen, Received(s, c), Received(s, d));
  }

  lemma SuffixesNest(h: seq<byte>, a: nat, b: nat, x: seq<byte>, y: seq<byte>)
    requires a <= |h| && x == Last(h, (if a <= RING_SIZE then a else RING_SIZE) + |h| - a)
    requires b <= |h| && y == Last(h, (if b <= RING_SIZE then b else RING_SIZE) + |h| - b)
    ensures EndsWith(x, y) || EndsWith(y, x)
  {
    if |x| <= |y| {
      LastOfLonger(h, |x|, |y|);
    } else {
      LastOfLonger(h, |y|, |x|);
    }
  }

  lemma LastOfLonger(h: seq<byte>, i: nat, j: nat)
    requires i <= j <= |h|
    ensures EndsWith(Last(h, j), Last(h, i))
  {
    assert h[|h| - j..][j - i..] == h[|h| - i..];
  }

  // ----- A run with a loss -----

  lemma {:induction false} ExecSplit<C>(s: State<C>, a: seq<Step<C>>, b: seq<Step<C>>)
    requires Allowed(s, a) && Allowed(Exec(s, a), b)
    ensures Allowed(s, a + b) && Exec(s, a + b) == Exec(Exec(s, a), b)
    decreases |a|
  {
    hide Enabled, Apply;
    if a == [] {
      assert a + b == b;
    } else {
      assert (a + b)[1..] == a[1..] + b;
      ExecSplit(Apply(s, a[0]), a[1..], b);
    }
  }

  lemma Then<C>(s: State<C>, run: seq<Step<C>>, st: Step<C>)
    requires Allowed(s, run) && Enabled(Exec(s, run), st)
    ensures Allowed(s, run + [st]) && Exec(s, run + [st]) == Apply(Exec(s, run), st)
  {
    hide Enabled, Apply;
    First(Exec(s, run), st);
    ExecSplit(s, run, [st]);
  }

  lemma First<C>(s: State<C>, st: Step<C>)
    requires Enabled(s, st)
    ensures Allowed(s, [st]) && Exec(s, [st]) == Apply(s, st)
  {
    hide Enabled, Apply;
    assert [st][1..] == [];
    NoSteps(Apply(s, st));
  }

  function Replies(n: nat): seq<Frame> {
    if n == 0 then [] else Replies(n - 1) + [Reply]
  }

  /** Replies to `n` requests of `c`. */
  function Requests<C>(c: C, n: nat): seq<Step<C>> {
    if n == 0 then [] else Requests(c, n - 1) + [Foreign(c, Reply, true)]
  }

  lemma NoSteps<C>(s: State<C>)
    ensures Allowed(s, []) && Exec(s, []) == s
  {
  }

  lemma {:induction false} RequestsFill<C>(s: State<C>, c: C, n: nat)
    requires c in s.subs && !s.subs[c].done && |s.subs[c].log| + n <= s.subs[c].taken + s.subs[c].Capacity()
    ensures Allowed(s, Requests(c, n)) && |Replies(n)| == n
    ensures Exec(s, Requests(c, n)) == s.(subs := s.subs[c := s.subs[c].(log := s.subs[c].log + Replies(n))])
  {
    hide Allowed, Exec;
    var q := s.subs[c];
    if n == 0 {
      NoSteps(s);
      assert q.log + [] == q.log && s.subs[c := q] == s.subs;
    } else {
      RequestsFill(s, c, n - 1);
      Then(s, Requests(c, n - 1), Foreign(c, Reply, true));
      Associative(q.log, Replies(n - 1), [Reply]);
    }
  }

  lemma {:induction false} RepliesAreForeign(fs: seq<Frame>, n: nat)
    ensures Own(fs + Replies(n)) == Own(fs)
  {
    if n == 0 {
      assert fs + Replies(0) == fs;
    } else {
      RepliesAreForeign(fs, n - 1);
      Associative(fs, Replies(n - 1), [Reply]);
      OwnSnoc(fs + Replies(n - 1), Reply);
    }
  }

  lemma OwnSnoc(fs: seq<Frame>, f: Frame)
    ensures Own(fs + [f]) == if Streamed(f) then Own(fs) + [f] else Own(fs)
  {
    assert (fs + [f])[..|fs|] == fs;
  }

  /** An attached connection whose application reads nothing for a while. */
  function Unread<C>(c: C): seq<Step<C>> {
    [Connect(c, false)] + [Attach(c)] + [SendReplay(true)] + [EndReplay] + Requests(c, OUTBOUND_QUEUE - 1)
  }

  /** A chunk read for `c` alone. */
  function Chunk<C>(c: C, chunk: seq<byte>): seq<Step<C>> {
    [Read(chunk)] + [SendLive(c, true)] + [EndFanout]
  }

  lemma ChunkSent<C>(s: State<C>, c: C, chunk: seq<byte>)
    requires s.lock.Free? && chunk != [] && s.attached == {c} && c in s.subs
    ensures Allowed(s, Chunk(c, chunk))
    ensures var t := Exec(s, Chunk(c, chunk));
            && t.lock.Free? && t.attached == {c} && t.marks == s.marks && t.history == s.history + chunk
            && t.subs == s.subs[c := s.subs[c].Send(Output(chunk), true)]
  {
    hide Allowed, Exec, Scorc.Rewritten, Scorc.Held;
    First(s, Read(chunk));
    Then(s, [Read(chunk)], SendLive(c, true));
    Then(s, [Read(chunk)] + [SendLive(c, true)], EndFanout);
  }

  /** One chunk finds its queue full; the next one finds room, and the shutdown has yet to come. */
  function Overflowing<C>(c: C): seq<Step<C>> {
    Unread(c) + (Chunk(c, [1]) + ([Drain(c)] + Chunk(c, [2])))
  }

  /** `c` attached at the very beginning, and has this in its queue. */
  function Lone<C>(c: C, fs: seq<Frame>): State<C> {
    Init<C>(true).(subs := map[c := Queue(false, fs, 0, false, 0)], attached := {c}, marks := map[c := Mark(0, 0, 0)])
  }

  lemma UnreadIsFull<C>(c: C)
    ensures Allowed(Init(true), Unread(c)) && |Replies(OUTBOUND_QUEUE - 1)| == OUTBOUND_QUEUE - 1
    ensures Exec(Init(true), Unread(c)) == Lone(c, [ScrollbackEnd] + Replies(OUTBOUND_QUEUE - 1))
  {
    hide Allowed, Exec;
    var s := Init<C>(true);
    First(s, Connect(c, false));
    var run := [Connect(c, false)];
    Then(s, run, Attach(c));
    assert ReplayFrames(false, []) == [ScrollbackEnd];
    Then(s, run + [Attach(c)], SendReplay(true));
    run := run + [Attach(c)] + [SendReplay(true)];
    Then(s, run, EndReplay);
    run := run + [EndReplay];
    assert Exec(s, run) == Lone(c, [ScrollbackEnd]);
    RequestsFill(Lone(c, [ScrollbackEnd]), c, OUTBOUND_QUEUE - 1);
    ExecSplit(s, run, Requests(c, OUTBOUND_QUEUE - 1));
  }

  /** From a full queue: a chunk is lost, one message is drained, the next chunk is queued. */
  lemma ChunkLost<C>(s: State<C>, c: C)
    requires s.lock.Free? && s.attached == {c} && c in s.subs && s.history == []
    requires s.subs[c].taken == 0 && |s.subs[c].log| == s.subs[c].Capacity() && !s.subs[c].done
    ensures Allowed(s, Chunk(c, [1]) + ([Drain(c)] + Chunk(c, [2])))
    ensures var t := Exec(s, Chunk(c, [1]) + ([Drain(c)] + Chunk(c, [2])));
            && t.attached == {c} && t.marks == s.marks && t.history == [1, 2]
            && var q := s.subs[c];
               t.subs == s.subs[c := q.(log := q.log + [Output([2])], taken := 1, lost := q.lost + 1)]
  {
    hide Allowed, Exec, Chunk;
    ChunkSent(s, c, [1]);
    var t := Exec(s, Chunk(c, [1]));
    First(t, Drain(c));
    ChunkSent(Apply(t, Drain(c)), c, [2]);
    ExecSplit(t, [Drain(c)], Chunk(c, [2]));
    ExecSplit(s, Chunk(c, [1]), [Drain(c)] + Chunk(c, [2]));
  }

  /**
   After an overflow a later chunk may still be queued, before the shutdown takes effect: then the stream has a gap,
   although the connection is attached and not shut down.
   */
  lemma GapAfterOverflow<C>(c: C)
    ensures Allowed(Init(true), Overflowing(c))
    ensures var s := Exec(Init(true), Overflowing(c));
            && c in s.attached && c in s.subs && c in s.marks && !s.subs[c].done
            && s.history == [1, 2]
            && Since(s.subs[c], s.marks[c]) == [ScrollbackEnd, Output([2])]
            && !Clean(s.subs[c], s.marks[c])
  {
    var fs := [ScrollbackEnd] + Replies(OUTBOUND_QUEUE - 1);
    OwnSnoc([], ScrollbackEnd);
    assert [] + [ScrollbackEnd] == [ScrollbackEnd];
    RepliesAreForeign([ScrollbackEnd], OUTBOUND_QUEUE - 1);
    OwnSnoc(fs, Output([2]));
    hide Allowed, Exec, Chunk, Unread, Own, Replies;
    UnreadIsFull(c);
    ChunkLost(Lone(c, fs), c);
    ExecSplit(Init(true), Unread(c), Chunk(c, [1]) + ([Drain(c)] + Chunk(c, [2])));
    var q := Exec(Init(true), Overflowing(c)).subs[c];
    assert q.log[0..] == q.log;
  }

  // ----- One subscriber's behaviour does not reach the others -----

  /** The session as if `c` had never been there. */
  function Erase<C(==)>(s: State<C>, c: C): State<C> {
    s.(subs := s.subs - {c},
       attached := s.attached - {c},
       marks := s.marks - {c},
       lock := match s.lock
               case Free => Free
               case Sending(chunk, todo) => Sending(chunk, todo - {c})
               case Replaying(who, left) => if who == c then Free else s.lock)
  }

  /** Steps that concern `c` alone. */
  predicate OnlyAbout<C(==)>(s: State<C>, st: Step<C>, c: C) {
    match st
    case Connect(d, _) => d == c
    case SendLive(d, _) => d == c
    case Attach(d) => d == c
    case Detach(d) => d == c
    case Foreign(d, _, _) => d == c
    case Drain(d) => d == c
    case Close(d) => d == c
    case SendReplay(_) => s.lock.Replaying? && s.lock.who == c
    case EndReplay => s.lock.Replaying? && s.lock.who == c
    case Read(_) => false
    case EndFanout => false
    case Clear => false
  }

  lemma OwnStepIsInvisible<C>(s: State<C>, st: Step<C>, c: C)
    requires Enabled(s, st) && OnlyAbout(s, st, c)
    ensures Erase(Apply(s, st), c) == Erase(s, c)
  {
    var t := Apply(s, st);
    assert t.subs - {c} == s.subs - {c};
    assert t.attached - {c} == s.attached - {c};
    assert t.marks - {c} == s.marks - {c};
    assert st.SendLive? ==> s.lock.todo - {c} - {c} == s.lock.todo - {c};
  }

  lemma OtherStepIsTheSame<C>(s: State<C>, st: Step<C>, c: C)
    requires Enabled(s, st) && !OnlyAbout(s, st, c)
    ensures Enabled(Erase(s, c), st)
    ensures Apply(Erase(s, c), st) == Erase(Apply(s, st), c)
  {
    var t, e := Apply(s, st), Erase(s, c);
    assert Enabled(e, st);
    var u := Apply(e, st);
    assert u.subs == t.subs - {c};
    assert u.attached == t.attached - {c};
    assert u.marks == t.marks - {c};
    assert u.lock == Erase(t, c).lock by {
      if st.SendLive? {
        assert s.lock.todo - {c} - {st.c} == s.lock.todo - {st.c} - {c};
      }
    }
  }

  /** A run without the steps that concern `c` alone. */
  function Purge<C(==)>(s: State<C>, run: seq<Step<C>>, c: C): seq<Step<C>>
    requires Allowed(s, run)
    decreases |run|
  {
    if run == [] then []
    else
      var rest := Purge(Apply(s, run[0]), run[1..], c);
      if OnlyAbout(s, run[0], c) then rest else [run[0]] + rest
  }

  lemma {:induction false} PurgedRun<C>(s: State<C>, run: seq<Step<C>>, c: C)
    requires Allowed(s, run)
    ensures Allowed(Erase(s, c), Purge(s, run, c))
    ensures Exec(Erase(s, c), Purge(s, run, c)) == Erase(Exec(s, run), c)
    decreases |run|
  {
    if run != [] {
      var t, rest := Apply(s, run[0]), Purge(Apply(s, run[0]), run[1..], c);
      PurgedRun(t, run[1..], c);
      if OnlyAbout(s, run[0], c) {
        OwnStepIsInvisible(s, run[0], c);
      } else {
        OtherStepIsTheSame(s, run[0], c);
        assert ([run[0]] + rest)[1..] == rest;
      }
    }
  }

  lemma SameButFor<C>(s: State<C>, s': State<C>, c: C)
    requires Erase(s, c) == Erase(s', c)
    ensures s.history == s'.history && s.ring == s'.ring && s.fed == s'.fed
    ensures s.attached - {c} == s'.attached - {c}
    ensures s.subs - {c} == s'.subs - {c}
  {
  }

  /**
   Two runs that differ only in what happens to `c` (whether its queue overflows, when it is drained, whether it
   attaches at all) leave history, ring, emulator and every other queue the same.
   */
  lemma SlowSubscriberIsolation<C>(emulated: bool, run: seq<Step<C>>, run': seq<Step<C>>, c: C)
    requires Allowed(Init(emulated), run) && Allowed(Init(emulated), run')
    requires Purge(Init(emulated), run, c) == Purge(Init(emulated), run', c)
    ensures var s, s' := Exec(Init(emulated), run), Exec(Init(emulated), run');
            && s.history == s'.history && s.ring == s'.ring && s.fed == s'.fed
            && s.attached - {c} == s'.attached - {c}
            && s.subs - {c} == s'.subs - {c}
  {
    var i := Init<C>(emulated);
    PurgedRun(i, run, c);
    PurgedRun(i, run', c);
    var s, s' := Exec(i, run), Exec(i, run');
    SameButFor(s, s', c);
  }
}
