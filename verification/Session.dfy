/**
 The session object and its connections (internal/server/session.go, internal/server/server.go,
 internal/server/raw.go, pkg/ptysession/session.go).

 Each method is what one thread does while it holds the session lock. On its own it is one of the runs of the step
 system in module Fanout, and it moves the size as module Arbitration says.
 */
module Session {
  import opened Bytes
  import opened Fanout
  import opened Arbitration
  import opened Ring
  import opened Scorc

  ghost predicate Sent(before: Queue, f: Frame, after: Queue) {
    exists pick :: after == before.Send(f, pick)
  }

  /** A framed connection or a raw subscriber: the bounded channel its writer drains. */
  class Conn {
    const raw: bool
    var out: seq<Frame>
    var done: bool

    ghost var log: seq<Frame>  // everything out ever accepted
    ghost var lost: nat        // how many frames of the stream found it full

    ghost predicate Valid()
      reads this
    {
      EndsWith(log, out)
    }

    ghost function Value(): Queue
      reads this
      requires Valid()
    {
      Queue(raw, log, |log| - |out|, done, lost)
    }

    constructor (raw: bool)
      ensures Valid() && Value() == Queue(raw, [], 0, false, 0)
    {
      this.raw := raw;
      out, done := [], false;
      log, lost := [], 0;
    }

    /** The select of send and enqueue: whichever case is ready, and the default when none is. */
    method Send(f: Frame)
      requires Valid()
      modifies this
      ensures Valid()
      ensures Sent(old(Value()), f, Value())
      ensures done == old(done)
      ensures var full := |old(out)| >= if raw then 64 else 256;
              && (!full && !old(done) ==> out == old(out) + [f] && log == old(log) + [f] && lost == old(lost))
              && (!full && old(done) ==> out in {old(out), old(out) + [f]} && lost == old(lost))
              && (full ==> out == old(out) && log == old(log)
                           && lost == old(lost) + if Streamed(f) && !old(done) then 1 else 0)
    {
      ghost var q := Value();
      var capacity := if raw then RAW_QUEUE else OUTBOUND_QUEUE;
      if {
        case |out| < capacity =>
          out := out + [f];
          log := log + [f];
          assert Value() == q.Send(f, true);
        case done =>
          assert Value() == q.Send(f, false);
        case |out| >= capacity && !done =>
          // The daemon starts a shutdown here, which is a step of its own.
          lost := lost + if Streamed(f) then 1 else 0;
          assert Value() == q.Send(f, true);
      }
    }

    /** What the writer does when there is something to write. */
    method Receive() returns (f: Frame)
      requires Valid() && out != []
      modifies this
      ensures Valid()
      ensures f == old(log)[old(Value()).taken]
      ensures Value() == old(Value()).(taken := old(Value()).taken + 1)
    {
      f := out[0];
      out := out[1..];
    }

    method Shutdown()
      requires Valid()
      modifies this
      ensures Valid()
      ensures Value() == old(Value()).(done := true)
    {
      done := true;
    }
  }

  // ----- Runs of the step system -----

  /** `run` leads from `s` to `t`. */
  ghost predicate Leads(s: Fanout.State<Conn>, run: seq<Fanout.Step<Conn>>, t: Fanout.State<Conn>) {
    Allowed(s, run) && Exec(s, run) == t
  }

  lemma {:induction false} LeadsOn(s: Fanout.State<Conn>, run: seq<Fanout.Step<Conn>>, t: Fanout.State<Conn>,
                                   st: Fanout.Step<Conn>)
    requires Leads(s, run, t) && Enabled(t, st)
    ensures Leads(s, run + [st], Apply(t, st))
    decreases |run|
  {
    if run == [] {
      assert run + [st] == [st];
      assert [st][1..] == [];
    } else {
      assert (run + [st])[1..] == run[1..] + [st];
      LeadsOn(Apply(s, run[0]), run[1..], t, st);
    }
  }

  /** The steps of one read: the chunk, one send to each subscriber, the release of the lock. */
  ghost predicate ReadRun(run: seq<Fanout.Step<Conn>>, chunk: seq<byte>) {
    && |run| >= 2 && run[0] == Read(chunk) && run[|run| - 1] == EndFanout
    && forall i :: 0 < i < |run| - 1 ==> run[i].SendLive?
  }

  /** The steps of one attach: the mark, the sends of the replay, the release of the lock. */
  ghost predicate AttachRun(run: seq<Fanout.Step<Conn>>, c: Conn) {
    && |run| >= 2 && run[0] == Fanout.Attach(c) && run[|run| - 1] == EndReplay
    && forall i :: 0 < i < |run| - 1 ==> run[i].SendReplay?
  }

  ghost predicate SendsLive(run: seq<Fanout.Step<Conn>>, chunk: seq<byte>) {
    && |run| >= 1 && run[0] == Read(chunk)
    && forall i :: 0 < i < |run| ==> run[i].SendLive?
  }

  ghost predicate SendsReplay(run: seq<Fanout.Step<Conn>>, c: Conn) {
    && |run| >= 1 && run[0] == Fanout.Attach(c)
    && forall i :: 0 < i < |run| ==> run[i].SendReplay?
  }

  class Session {
    const ring: RingBuffer
    const scorc: ScorcRewriter?  // null on a raw session, together with the emulator
    var term: seq<byte>          // the emulator, seen as the bytes it was given
    var attachments: map<Conn, Winsize>
    var rawSubs: set<Conn>
    var screen: Screen
    var killed: bool

    ghost var peers: set<Conn>   // every connection there is
    ghost var marks: map<Conn, Mark>

    /** Ring and emulator have taken in the same bytes. */
    ghost predicate CoreValid()
      reads this`term, ring, ring.data, scorc
    {
      && ring.Valid() && ring.max == RING_SIZE
      && (scorc != null ==> scorc.Valid() && scorc.consumed == ring.history && term == scorc.emitted)
      && (scorc == null ==> term == [])
    }

    ghost predicate SubscribersValid()
      reads this`attachments, this`rawSubs, this`marks, this`peers
    {
      && attachments.Keys <= peers && rawSubs <= peers
      && attachments.Keys + rawSubs <= marks.Keys
      && (forall c :: c in attachments ==> !c.raw)
      && (forall c :: c in rawSubs ==> c.raw)
    }

    ghost predicate PeersValid()
      reads this`peers, peers
    {
      forall c :: c in peers ==> c.Valid()
    }

    ghost predicate Valid()
      reads this`term, this`attachments, this`rawSubs, this`marks, this`peers, ring, ring.data, scorc, peers
    {
      CoreValid() && SubscribersValid() && PeersValid()
    }

    ghost function Queues(): map<Conn, Queue>
      reads this`peers, peers
      requires PeersValid()
    {
      map c | c in peers :: c.Value()
    }

    ghost function Attached(): set<Conn>
      reads this`attachments, this`rawSubs
    {
      attachments.Keys + rawSubs
    }

    /** The session as a state of the step system, but for who is attached and who holds the lock. */
    ghost function Core(): Fanout.State<Conn>
      reads this`term, ring, ring.data, scorc
      requires CoreValid()
    {
      Fanout.State(scorc != null, ring.history, Last(ring.history, RING_SIZE), term,
                   if scorc == null then [] else scorc.pending, map[], {}, Free, map[])
    }

    /** The session as a state of the step system, with the lock as given. */
    ghost function Under(lock: Lock<Conn>): Fanout.State<Conn>
      reads this`term, this`attachments, this`rawSubs, this`marks, this`peers, ring, ring.data, scorc, peers
      requires Valid()
    {
      Core().(subs := Queues(), attached := Attached(), lock := lock, marks := marks)
    }

    ghost function View(): Fanout.State<Conn>
      reads this`term, this`attachments, this`rawSubs, this`marks, this`peers, ring, ring.data, scorc, peers
      requires Valid()
    {
      Under(Free)
    }

    constructor (raw: bool, cols: int, rows: int)
      ensures Valid()
      ensures View() == Init(!raw)
      ensures attachments == map[] && screen == Started(cols, rows)
      ensures screen.cols == (if cols > 0 then cols else 80) && screen.rows == (if rows > 0 then rows else 24)
      ensures screen.ptyCols == screen.cols % 65536 && screen.ptyRows == screen.rows % 65536
      ensures fresh(ring) && fresh(ring.data) && (scorc != null ==> fresh(scorc))
    {
      var r := new RingBuffer(RING_SIZE);
      var w: ScorcRewriter? := null;
      if !raw {
        w := new ScorcRewriter();
      }
      ring, scorc, term := r, w, [];
      attachments, rawSubs := map[], {};
      screen, killed := Started(cols, rows), false;
      peers, marks := {}, map[];
    }

    /** A new connection becomes known; it is not attached to anything yet. */
    ghost method Join(c: Conn)
      requires Valid() && c !in peers && c.Valid() && c.Value() == Queue(c.raw, [], 0, false, 0)
      modifies this`peers
      ensures Valid() && peers == old(peers) + {c}
      ensures Leads(old(View()), [Connect(c, c.raw)], View())
    {
      hide Allowed, Exec, Apply, CoreValid, Core, SubscribersValid, PeersValid;
      JoinStep(View(), c, c.raw);
      AddPeer(c);
    }

    ghost method AddPeer(c: Conn)
      requires PeersValid() && SubscribersValid() && c.Valid()
      modifies this`peers
      ensures peers == old(peers) + {c}
      ensures PeersValid() && SubscribersValid()
      ensures Queues() == old(Queues())[c := c.Value()]
    {
      peers := peers + {c};
    }

    /** One send to one connection; nothing else changes. */
    method Deliver(c: Conn, f: Frame)
      requires Valid() && c in peers
      modifies c
      ensures Valid()
      ensures exists pick :: Queues() == old(Queues())[c := old(Queues())[c].Send(f, pick)]
    {
      ghost var before := Queues();
      c.Send(f);
      ghost var pick :| c.Value() == before[c].Send(f, pick);
      assert Queues() == before[c := before[c].Send(f, pick)];
    }

    method DeliverLive(c: Conn, chunk: seq<byte>, ghost todo: set<Conn>,
                       ghost s: Fanout.State<Conn>, ghost run: seq<Fanout.Step<Conn>>)
      returns (ghost longer: seq<Fanout.Step<Conn>>)
      requires Valid() && c in peers && c in todo
      requires SendsLive(run, chunk) && Leads(s, run, Under(Sending(chunk, todo)))
      modifies c
      ensures Valid()
      ensures SendsLive(longer, chunk) && Leads(s, longer, Under(Sending(chunk, todo - {c})))
    {
      hide Allowed, Exec, Rewritten, Held, Tokens;
      ghost var t := Under(Sending(chunk, todo));
      Deliver(c, Output(chunk));
      ghost var pick :| Queues() == t.subs[c := t.subs[c].Send(Output(chunk), pick)];
      LeadsOn(s, run, t, SendLive(c, pick));
      longer := run + [SendLive(c, pick)];
    }

    /** The fan-out of a chunk, first to the attached connections and then to the raw subscribers, in any order. */
    method OnOutput(chunk: seq<byte>, ghost s: Fanout.State<Conn>) returns (ghost run: seq<Fanout.Step<Conn>>)
      requires Valid()
      requires Leads(s, [Read(chunk)], Under(Sending(chunk, Attached())))
      modifies attachments.Keys, rawSubs
      ensures Valid()
      ensures ReadRun(run, chunk) && Leads(s, run, View())
    {
      assert attachments.Keys <= peers && rawSubs <= peers && attachments.Keys !! rawSubs;
      hide Leads, CoreValid, Core, SubscribersValid, PeersValid;
      assert rawSubs + {} == rawSubs;
      run := SendToEach(chunk, attachments.Keys, rawSubs, s, [Read(chunk)]);
      run := SendToEach(chunk, rawSubs, {}, s, run);
      FannedOut(s, run, Under(Sending(chunk, {})));
      run := run + [EndFanout];
    }

    /** One of the two loops; `others` are still to come. */
    method SendToEach(chunk: seq<byte>, conns: set<Conn>, ghost others: set<Conn>,
                      ghost s: Fanout.State<Conn>, ghost start: seq<Fanout.Step<Conn>>)
      returns (ghost run: seq<Fanout.Step<Conn>>)
      requires Valid() && conns <= peers && conns !! others
      requires SendsLive(start, chunk) && Leads(s, start, Under(Sending(chunk, conns + others)))
      modifies conns
      ensures Valid()
      ensures SendsLive(run, chunk) && Leads(s, run, Under(Sending(chunk, others)))
    {
      hide Leads, CoreValid, Core, SubscribersValid, PeersValid, Under;
      run := start;
      var todo := conns;
      while todo != {}
        modifies conns
        invariant Valid() && todo <= conns
        invariant SendsLive(run, chunk) && Leads(s, run, Under(Sending(chunk, todo + others)))
      {
        var c :| c in todo;
        run := DeliverLive(c, chunk, todo + others, s, run);
        assert todo + others - {c} == (todo - {c}) + others;
        todo := todo - {c};
      }
      assert todo + others == others;
    }

    /** The emulator takes in a chunk, if there is one. */
    method Emulate(chunk: seq<byte>)
      requires scorc != null ==> scorc.Valid() && term == scorc.emitted
      modifies this`term, scorc
      ensures scorc == null ==> term == old(term)
      ensures scorc != null ==>
                && scorc.Valid() && scorc.consumed == old(scorc.consumed) + chunk && term == scorc.emitted
                && term == old(term) + Rewritten(old(scorc.pending) + chunk)
                && scorc.pending == Held(old(scorc.pending) + chunk)
    {
      if scorc != null {
        ChunkInvariance(scorc.consumed, chunk);
        var translated := scorc.Translate(chunk);
        term := term + translated;
      }
    }

    /** Ring and emulator take in a chunk. */
    method TakeIn(chunk: seq<byte>)
      requires CoreValid()
      modifies this`term, ring, ring.data, scorc
      ensures CoreValid()
      ensures ring.data == old(ring.data) || fresh(ring.data)
      ensures Core() == WithChunk(old(Core()), chunk)
    {
      LastOfLast(ring.history, chunk, RING_SIZE);
      ring.Append(chunk);
      Emulate(chunk);
    }

    /** The body of the read loop for a chunk that was read. */
    method ReadChunk(chunk: seq<byte>)
      requires Valid() && chunk != []
      modifies this`term, ring, ring.data, scorc, attachments.Keys, rawSubs
      ensures Valid()
      ensures ring.data == old(ring.data) || fresh(ring.data)
      ensures exists run :: ReadRun(run, chunk) && Leads(old(View()), run, View())
    {
      hide Allowed, Exec, Rewritten, Held, Tokens, CoreValid, Core, Apply, SubscribersValid;
      ghost var s := View();
      BeginRead(s, chunk);
      TakeIn(chunk);
      ghost var run := OnOutput(chunk, s);
    }

    method Snapshot() returns (out: seq<byte>)
      requires CoreValid()
      ensures out == Core().ring
    {
      out := ring.Snapshot();
    }

    /** The smallest positive wish in each dimension, 0 where there is none. */
    method LeastWishes() returns (cols: int, rows: int)
      ensures Least(Cols(attachments), cols) && Least(Rows(attachments), rows)
    {
      cols, rows := 0, 0;
      var todo := attachments.Keys;
      ghost var cs, rs: set<int> := {}, {};
      while todo != {}
        invariant todo <= attachments.Keys
        invariant forall c :: c in attachments && c !in todo ==> attachments[c].cols in cs && attachments[c].rows in rs
        invariant cs <= Cols(attachments) && rs <= Rows(attachments)
        invariant Least(cs, cols) && Least(rs, rows)
      {
        var c :| c in todo;
        var ws := attachments[c];
        LeastWith(cs, cols, ws.cols);
        LeastWith(rs, rows, ws.rows);
        if ws.cols > 0 && (cols == 0 || ws.cols < cols) {
          cols := ws.cols;
        }
        if ws.rows > 0 && (rows == 0 || ws.rows < rows) {
          rows := ws.rows;
        }
        cs, rs := cs + {ws.cols}, rs + {ws.rows};
        todo := todo - {c};
      }
      assert cs == Cols(attachments) && rs == Rows(attachments);
    }

    method RecomputeSize()
      modifies this`screen
      ensures Called(attachments, old(screen), screen)
    {
      var cols, rows := LeastWishes();
      forall m, n | Least(Cols(attachments), m) && Least(Rows(attachments), n)
        ensures m == cols && n == rows
      {
        LeastIsUnique(Cols(attachments), m, cols);
        LeastIsUnique(Rows(attachments), n, rows);
      }
      if cols == 0 || rows == 0 {
        return;
      }
      ResizeLocked(cols, rows);
    }

    method ResizeLocked(cols: int, rows: int)
      modifies this`screen
      ensures screen == if cols <= 0 || rows <= 0 || (cols == old(screen).cols && rows == old(screen).rows)
                        then old(screen) else OnPty(cols, rows)
    {
      if cols <= 0 || rows <= 0 {
        return;
      }
      if cols == screen.cols && rows == screen.rows {
        return;
      }
      screen := OnPty(cols, rows);
    }

    method DeliverReplay(c: Conn, f: Frame, ghost left: seq<Frame>,
                         ghost s: Fanout.State<Conn>, ghost run: seq<Fanout.Step<Conn>>)
      returns (ghost longer: seq<Fanout.Step<Conn>>)
      requires Valid() && c in peers
      requires SendsReplay(run, c) && Leads(s, run, Under(Replaying(c, [f] + left)))
      modifies c
      ensures Valid()
      ensures SendsReplay(longer, c) && Leads(s, longer, Under(Replaying(c, left)))
    {
      hide Allowed, Exec, Rewritten, Held, Tokens;
      ghost var t := Under(Replaying(c, [f] + left));
      Deliver(c, f);
      ghost var pick :| Queues() == t.subs[c := t.subs[c].Send(f, pick)];
      assert ([f] + left)[1..] == left;
      LeadsOn(s, run, t, SendReplay(pick));
      longer := run + [SendReplay(pick)];
    }

    /** The scrollback in frames, and the marker. */
    method SendScrollback(c: Conn, snapshot: seq<byte>, ghost s: Fanout.State<Conn>)
      returns (ghost run: seq<Fanout.Step<Conn>>)
      requires Valid() && c in peers
      requires Leads(s, [Fanout.Attach(c)], Under(Replaying(c, ReplayFrames(false, snapshot))))
      modifies c
      ensures Valid()
      ensures AttachRun(run, c) && Leads(s, run, View())
    {
      hide Chunks, CoreValid, Core, Apply, SubscribersValid, Allowed, Exec, Rewritten, Held, Tokens;
      run := [Fanout.Attach(c)];
      var i := 0;
      ghost var left := Chunks(snapshot);
      while i < |snapshot|
        modifies c
        invariant i <= |snapshot| && left == Chunks(snapshot[i..])
        invariant Valid()
        invariant SendsReplay(run, c) && Leads(s, run, Under(Replaying(c, left + [ScrollbackEnd])))
      {
        var end := i + PTY_CHUNK;
        if end > |snapshot| {
          end := |snapshot|;
        }
        NextChunk(snapshot, i, end, left);
        run := DeliverReplay(c, Output(snapshot[i..end]), left[1..] + [ScrollbackEnd], s, run);
        left := left[1..];
        i := if i + PTY_CHUNK > |snapshot| then |snapshot| else i + PTY_CHUNK;
      }
      NoChunks(snapshot[i..]);
      assert left + [ScrollbackEnd] == [ScrollbackEnd] + [];
      run := DeliverReplay(c, ScrollbackEnd, [], s, run);
      Released(s, run, Under(Replaying(c, [])));
      run := run + [EndReplay];
    }

    method Attach(c: Conn, cols: int, rows: int)
      requires Valid() && c in peers && !c.raw
      modifies this`attachments, this`screen, this`marks, c
      ensures Valid()
      ensures attachments == old(attachments)[c := Winsize(cols, rows)]
      ensures Called(attachments, old(screen), screen)
      ensures exists run :: AttachRun(run, c) && Leads(old(View()), run, View())
    {
      hide Allowed, Exec, Rewritten, Held, Tokens, Apply, CoreValid, Core, SubscribersValid, PeersValid;
      ghost var s := View();
      Enter(c, Winsize(cols, rows));
      RecomputeSize();
      var snapshot := Snapshot();
      ghost var run := SendScrollback(c, snapshot, s);
    }

    /** `c` is among the attached from here on. */
    method Enter(c: Conn, size: Winsize)
      requires Valid() && c in peers && !c.raw
      modifies this`attachments, this`marks
      ensures Valid() && attachments == old(attachments)[c := size]
      ensures Leads(old(View()), [Fanout.Attach(c)], Under(Replaying(c, ReplayFrames(false, Core().ring))))
    {
      hide PeersValid, Allowed, Exec, Rewritten, Held, Tokens, Apply, CoreValid, Core;
      ghost var s := View();
      BeginAttach(s, c);
      attachments := attachments[c := size];
      marks := marks[c := Mark(|s.subs[c].log|, |s.history|, s.subs[c].lost)];
      assert Attached() == s.attached + {c};
    }

    method Detach(c: Conn)
      requires Valid() && !c.raw
      modifies this`attachments, this`screen
      ensures Valid()
      ensures attachments == old(attachments) - {c}
      ensures Called(attachments, old(screen), screen)
      ensures Leads(old(View()), [Fanout.Detach(c)], View())
    {
      hide Allowed, Exec, Rewritten, Held, Tokens, Apply, CoreValid, Core, PeersValid;
      LeaveStep(View(), c);
      ghost var attached := Attached();
      attachments := attachments - {c};
      assert Attached() == attached - {c};
      RecomputeSize();
    }

    method AttachRaw(c: Conn)
      requires Valid() && c in peers && c.raw
      modifies this`rawSubs, this`marks, c
      ensures Valid()
      ensures rawSubs == old(rawSubs) + {c}
      ensures exists run :: AttachRun(run, c) && Leads(old(View()), run, View())
    {
      hide Allowed, Exec, Rewritten, Held, Tokens, Apply, CoreValid, Core, SubscribersValid, PeersValid;
      ghost var s := View();
      EnterRaw(c);
      var snapshot := Snapshot();
      ghost var run := SendRawScrollback(c, snapshot, s);
    }

    method EnterRaw(c: Conn)
      requires Valid() && c in peers && c.raw
      modifies this`rawSubs, this`marks
      ensures Valid() && rawSubs == old(rawSubs) + {c}
      ensures Leads(old(View()), [Fanout.Attach(c)], Under(Replaying(c, ReplayFrames(true, Core().ring))))
    {
      hide PeersValid, Allowed, Exec, Rewritten, Held, Tokens, Apply, CoreValid, Core;
      ghost var s := View();
      BeginAttach(s, c);
      rawSubs := rawSubs + {c};
      marks := marks[c := Mark(|s.subs[c].log|, |s.history|, s.subs[c].lost)];
      assert Attached() == s.attached + {c};
    }

    /** The scrollback in one piece, unless there is none. */
    method SendRawScrollback(c: Conn, snapshot: seq<byte>, ghost s: Fanout.State<Conn>)
      returns (ghost run: seq<Fanout.Step<Conn>>)
      requires Valid() && c in peers
      requires Leads(s, [Fanout.Attach(c)], Under(Replaying(c, ReplayFrames(true, snapshot))))
      modifies c
      ensures Valid()
      ensures AttachRun(run, c) && Leads(s, run, View())
    {
      hide Allowed, Exec, Rewritten, Held, Tokens;
      run := [Fanout.Attach(c)];
      if |snapshot| > 0 {
        assert ReplayFrames(true, snapshot) == [Output(snapshot)] + [];
        run := DeliverReplay(c, Output(snapshot), [], s, run);
      }
      Released(s, run, Under(Replaying(c, [])));
      run := run + [EndReplay];
    }

    method DetachRaw(c: Conn)
      requires Valid() && c.raw
      modifies this`rawSubs
      ensures Valid()
      ensures rawSubs == old(rawSubs) - {c}
      ensures Leads(old(View()), [Fanout.Detach(c)], View())
    {
      hide Allowed, Exec, Rewritten, Held, Tokens, Apply, CoreValid, Core, PeersValid;
      LeaveStep(View(), c);
      ghost var attached := Attached();
      rawSubs := rawSubs - {c};
      assert Attached() == attached - {c};
    }

    method ResizeFrom(c: Conn, cols: int, rows: int)
      requires Valid()
      modifies this`attachments, this`screen
      ensures Valid() && View() == old(View())
      ensures attachments == Revote(old(attachments), Arbitration.Resize(c, Winsize(cols, rows)))
      ensures attachments == if c in old(attachments) then old(attachments)[c := Winsize(cols, rows)]
                             else old(attachments)
      ensures Called(attachments, old(screen), screen)
    {
      hide Allowed, Exec, Rewritten, Held, Tokens, Apply, CoreValid, Core, PeersValid, Called;
      if c in attachments {
        attachments := attachments[c := Winsize(cols, rows)];
      }
      RecomputeSize();
    }

    /** The end of the child: all subscribers are let go, and the framed ones told. */
    method OnExit(code: int)
      requires Valid()
      modifies this`attachments, this`rawSubs, attachments.Keys, rawSubs
      ensures Valid() && attachments == map[] && rawSubs == {}
      ensures forall c :: c in old(attachments) ==> Told(old(Queues())[c], c.Value(), killed, code)
      ensures forall c :: c in old(rawSubs) ==> c.Value() == old(Queues())[c].(done := true)
    {
      hide CoreValid, Core, Told, Leads;
      var conns, raws := LetGo();
      assert conns !! raws;
      TellAll(conns, code);
      ShutAll(raws);
    }

    /** The part of it under the lock. */
    method LetGo() returns (conns: set<Conn>, raws: set<Conn>)
      requires Valid()
      modifies this`attachments, this`rawSubs
      ensures Valid() && attachments == map[] && rawSubs == {}
      ensures conns == old(attachments.Keys) <= peers && raws == old(rawSubs) <= peers
      ensures forall c :: c in conns ==> !c.raw
      ensures forall c :: c in raws ==> c.raw
      ensures Leads(old(View()), [Fanout.Clear], View())
    {
      hide Allowed, Exec, CoreValid, Core;
      OneStep(View(), Fanout.Clear);
      conns, raws := attachments.Keys, rawSubs;
      attachments, rawSubs := map[], {};
    }

    method TellAll(conns: set<Conn>, code: int)
      requires Valid() && conns <= peers
      modifies conns
      ensures Valid()
      ensures forall c :: c in conns ==> Told(old(c.Value()), c.Value(), killed, code)
    {
      var todo := conns;
      while todo != {}
        modifies conns
        invariant Valid() && todo <= conns
        invariant forall c :: c in todo ==> c.Value() == old(c.Value())
        invariant forall c :: c in conns && c !in todo ==> Told(old(c.Value()), c.Value(), killed, code)
      {
        var c :| c in todo;
        Tell(c, code);
        todo := todo - {c};
      }
    }

    method Tell(c: Conn, code: int)
      requires c.Valid()
      modifies c
      ensures c.Valid() && Told(old(c.Value()), c.Value(), killed, code)
      ensures !old(c.done) && |old(c.out)| + 2 <= (if c.raw then 64 else 256) ==>
                c.out == old(c.out) + if killed then [Closed] else [Exit(code), Closed]
    {
      ghost var q := c.Value();
      if !killed {
        c.Send(Exit(code));
        ghost var p :| c.Value() == q.Send(Exit(code), p);
      }
      c.Send(Closed);
    }

    method ShutAll(raws: set<Conn>)
      requires Valid() && raws <= peers
      modifies raws
      ensures Valid()
      ensures forall c :: c in raws ==> c.Value() == old(c.Value()).(done := true)
    {
      var todo := raws;
      while todo != {}
        modifies raws
        invariant Valid() && todo <= raws
        invariant forall c :: c in todo ==> c.Value() == old(c.Value())
        invariant forall c :: c in raws && c !in todo ==> c.Value() == old(c.Value()).(done := true)
      {
        var c :| c in todo;
        c.Shutdown();
        todo := todo - {c};
      }
    }
  }

  /** One message that the session is closed, and before it, unless it was killed, one with the exit code. */
  ghost predicate Told(before: Queue, after: Queue, killed: bool, code: int) {
    if killed then Sent(before, Closed, after)
    else exists p :: Sent(before.Send(Exit(code), p), Closed, after)
  }

  lemma NoChunks(s: seq<byte>)
    requires s == []
    ensures Chunks(s) == []
  {
  }

  lemma NextChunk(snapshot: seq<byte>, i: nat, end: nat, left: seq<Frame>)
    requires i < |snapshot| && left == Chunks(snapshot[i..])
    requires end == if i + PTY_CHUNK > |snapshot| then |snapshot| else i + PTY_CHUNK
    ensures left != [] && left[1..] == Chunks(snapshot[end..])
    ensures left + [ScrollbackEnd] == [Output(snapshot[i..end])] + (left[1..] + [ScrollbackEnd])
  {
    var s := snapshot[i..];
    if |s| > PTY_CHUNK {
      assert s[PTY_CHUNK..] == snapshot[end..] && s[..PTY_CHUNK] == snapshot[i..end];
    } else {
      assert s == snapshot[i..end];
    }
  }

  /** What a chunk does to ring and emulator. */
  ghost function WithChunk(s: Fanout.State<Conn>, chunk: seq<byte>): Fanout.State<Conn> {
    s.(history := s.history + chunk,
       ring := Last(s.ring + chunk, RING_SIZE),
       fed := if s.emulated then s.fed + Rewritten(s.pending + chunk) else s.fed,
       pending := if s.emulated then Held(s.pending + chunk) else s.pending)
  }

  lemma BeginRead(s: Fanout.State<Conn>, chunk: seq<byte>)
    requires s.lock.Free? && chunk != []
    ensures Leads(s, [Read(chunk)], WithChunk(s, chunk).(lock := Sending(chunk, s.attached)))
  {
    OneStep(s, Read(chunk));
  }

  lemma FannedOut(s: Fanout.State<Conn>, run: seq<Fanout.Step<Conn>>, t: Fanout.State<Conn>)
    requires Leads(s, run, t) && t.lock.Sending? && t.lock.todo == {}
    ensures Leads(s, run + [EndFanout], t.(lock := Free))
  {
    LeadsOn(s, run, t, EndFanout);
  }

  lemma Released(s: Fanout.State<Conn>, run: seq<Fanout.Step<Conn>>, t: Fanout.State<Conn>)
    requires Leads(s, run, t) && t.lock.Replaying? && t.lock.left == []
    ensures Leads(s, run + [EndReplay], t.(lock := Free))
  {
    LeadsOn(s, run, t, EndReplay);
  }

  lemma JoinStep(s: Fanout.State<Conn>, c: Conn, raw: bool)
    requires c !in s.subs
    ensures Leads(s, [Connect(c, raw)], s.(subs := s.subs[c := Queue(raw, [], 0, false, 0)]))
  {
    OneStep(s, Connect(c, raw));
  }

  lemma LeaveStep(s: Fanout.State<Conn>, c: Conn)
    requires s.lock.Free?
    ensures Leads(s, [Fanout.Detach(c)], s.(attached := s.attached - {c}))
  {
    OneStep(s, Fanout.Detach(c));
  }

  lemma BeginAttach(s: Fanout.State<Conn>, c: Conn)
    requires s.lock.Free? && c in s.subs
    ensures Leads(s, [Fanout.Attach(c)],
                  s.(attached := s.attached + {c},
                     marks := s.marks[c := Mark(|s.subs[c].log|, |s.history|, s.subs[c].lost)],
                     lock := Replaying(c, ReplayFrames(s.subs[c].raw, s.ring))))
  {
    OneStep(s, Fanout.Attach(c));
  }

  lemma OneStep(s: Fanout.State<Conn>, st: Fanout.Step<Conn>)
    requires Enabled(s, st)
    ensures Leads(s, [st], Apply(s, st))
  {
    assert Leads(s, [], s);
    LeadsOn(s, [], s, st);
    assert [] + [st] == [st];
  }
}
