/**
 The Go client's request/reply correlation over one reader (clients/go/client.go).

 Calls, the reader and Close are threads. A step is one body under the client's mutex, one send or receive on a channel,
 or one write to the connection; steps of different threads follow one another in any order.
 */
module ClientCalls {
  import opened Bytes

  type Id = int

  datatype Msg<B> = Msg(id: Id, body: B)

  /** What a call's channel carries: a message from the wire and its place there, or failPending's error. */
  datatype Reply<B> = FromWire(msg: Msg<B>, at: nat) | Failed(id: Id, error: B)

  datatype Outcome<B> = Answer(reply: Reply<B>) | WriteError | ConnectionClosed

  datatype Phase<B> = Writing | Waiting | Returned(outcome: Outcome<B>)

  /** One call: how much the reader had decoded when it began, and its channel, which has room for one reply. */
  datatype Call<B> = Call(since: nat, phase: Phase<B>, chan: seq<Reply<B>>, got: seq<Reply<B>>)

  const CALL_ROOM := 1
  const EVENT_ROOM := 1024

  /** The reader: decoding; sending a reply; sending an event; in failPending, the mutex held; past it; returned. */
  datatype Reader<B> =
    | Decoding
    | Delivering(msg: Msg<B>)
    | Publishing(msg: Msg<B>)
    | Failing(error: B)
    | Drained
    | Ended
    | Stopped

  /** A decoded message, and whether a call was waiting for it. */
  datatype Entry<B> = Entry(msg: Msg<B>, matched: bool)

  datatype State<B> = State(
    nextID: Id,
    pending: set<Id>,
    calls: map<Id, Call<B>>,
    reader: Reader<B>,
    log: seq<Entry<B>>,       // everything decoded, in wire order
    events: seq<Msg<B>>,      // everything put on Events
    consumed: nat,            // how many of them the application has taken
    eventsClosed: bool,
    closed: bool)

  function Init<B>(): State<B> {
    State(0, {}, map[], Decoding, [], [], 0, false, false)
  }

  datatype Step<B> =
    | Begin
    | Wrote(id: Id)
    | WriteFailed(id: Id)
    | Take(id: Id)
    | GiveUp(id: Id)
    | Decode(msg: Msg<B>)
    | Deliver
    | Publish
    | Abandon
    | DecodeError(error: B)
    | FailOne(id: Id)
    | EndFail
    | End
    | Consume
    | Close

  predicate MutexFree<B>(s: State<B>) {
    !s.reader.Failing?
  }

  predicate InPhase<B(==)>(s: State<B>, id: Id, phase: Phase<B>) {
    id in s.calls && s.calls[id].phase == phase
  }

  predicate Enabled<B(==)>(s: State<B>, st: Step<B>) {
    match st
    case Begin => MutexFree(s)
    case Wrote(id) => InPhase(s, id, Writing)
    case WriteFailed(id) => InPhase(s, id, Writing) && MutexFree(s)
    case Take(id) => InPhase(s, id, Waiting) && s.calls[id].chan != []
    case GiveUp(id) => InPhase(s, id, Waiting) && s.closed
    case Decode(_) => s.reader.Decoding?
    case Deliver =>
      s.reader.Delivering? && s.reader.msg.id in s.calls && |s.calls[s.reader.msg.id].chan| < CALL_ROOM
    case Publish => s.reader.Publishing? && |s.events| - s.consumed < EVENT_ROOM
    case Abandon => s.reader.Publishing? && s.closed
    case DecodeError(_) => s.reader.Decoding?
    case FailOne(id) => s.reader.Failing? && id in s.pending && id in s.calls && |s.calls[id].chan| < CALL_ROOM
    case EndFail => s.reader.Failing? && s.pending == {}
    case End => s.reader.Drained?
    case Consume => s.consumed < |s.events|
    case Close => true
  }

  function Put<B>(c: Call<B>, r: Reply<B>): Call<B> {
    c.(chan := c.chan + [r], got := c.got + [r])
  }

  function Apply<B(==)>(s: State<B>, st: Step<B>): State<B>
    requires Enabled(s, st)
  {
    match st
    case Begin =>
      var id := s.nextID + 1;
      s.(nextID := id, pending := s.pending + {id}, calls := s.calls[id := Call(|s.log|, Writing, [], [])])
    case Wrote(id) => s.(calls := s.calls[id := s.calls[id].(phase := Waiting)])
    case WriteFailed(id) =>
      s.(pending := s.pending - {id}, calls := s.calls[id := s.calls[id].(phase := Returned(WriteError))])
    case Take(id) =>
      var c := s.calls[id];
      s.(calls := s.calls[id := c.(phase := Returned(Answer(c.chan[0])), chan := c.chan[1..])])
    case GiveUp(id) => s.(calls := s.calls[id := s.calls[id].(phase := Returned(ConnectionClosed))])
    case Decode(m) =>
      if m.id != 0 && m.id in s.pending then
        s.(pending := s.pending - {m.id}, reader := Delivering(m), log := s.log + [Entry(m, true)])
      else
        s.(reader := Publishing(m), log := s.log + [Entry(m, false)])
    case Deliver =>
      var m := s.reader.msg;
      var at := if s.log == [] then 0 else |s.log| - 1;
      s.(reader := Decoding, calls := s.calls[m.id := Put(s.calls[m.id], FromWire(m, at))])
    case Publish => s.(reader := Decoding, events := s.events + [s.reader.msg])
    case Abandon => s.(reader := Stopped)
    case DecodeError(e) => s.(reader := Failing(e))
    case FailOne(id) => s.(pending := s.pending - {id}, calls := s.calls[id := Put(s.calls[id], Failed(id, s.reader.error))])
    case EndFail => s.(reader := Drained)
    case End => s.(reader := Ended, eventsClosed := true, closed := true)
    case Consume => s.(consumed := s.consumed + 1)
    case Close => s.(closed := true)
  }

  predicate Allowed<B(==)>(s: State<B>, run: seq<Step<B>>)
    decreases |run|
  {
    run == [] || (Enabled(s, run[0]) && Allowed(Apply(s, run[0]), run[1..]))
  }

  function Exec<B(==)>(s: State<B>, run: seq<Step<B>>): State<B>
    requires Allowed(s, run)
    decreases |run|
  {
    if run == [] then s else Exec(Apply(s, run[0]), run[1..])
  }

  // ----- The invariant -----

  /** The messages no call was waiting for. */
  function Unmatched<B>(log: seq<Entry<B>>): seq<Msg<B>> {
    if log == [] then []
    else Unmatched(log[..|log| - 1]) + if log[|log| - 1].matched then [] else [log[|log| - 1].msg]
  }

  /** Since `since`, nothing with this id has come in. */
  ghost predicate Unheard<B>(log: seq<Entry<B>>, since: nat, id: Id) {
    forall j :: since <= j < |log| ==> log[j].msg.id != id
  }

  /** The message at `at` is the first with this id since `since`. */
  ghost predicate IsFirst<B>(log: seq<Entry<B>>, since: nat, id: Id, at: nat) {
    since <= at < |log| && log[at].msg.id == id && Unheard(log[..at], since, id)
  }

  ghost predicate RightReply<B>(log: seq<Entry<B>>, c: Call<B>, id: Id, r: Reply<B>) {
    match r
    case FromWire(m, at) => IsFirst(log, c.since, id, at) && log[at].msg == m && log[at].matched
    case Failed(who, _) => who == id && Unheard(log, c.since, id)
  }

  /** Where a call may be in the reader's hands. */
  predicate InHand<B>(s: State<B>, id: Id) {
    s.reader.Delivering? && s.reader.msg.id == id
  }

  /** A reply leaves the channel only to be the call's answer; without one a call returns only on a closed connection. */
  predicate OutcomeInv<B(==)>(c: Call<B>, closed: bool) {
    match c.phase
    case Returned(Answer(r)) => c.got == [r] && c.chan == []
    case Returned(ConnectionClosed) => closed && c.chan == c.got
    case _ => c.chan == c.got
  }

  ghost predicate CallInv<B>(s: State<B>, id: Id)
    requires id in s.calls
  {
    var c := s.calls[id];
    && c.since <= |s.log|
    && |c.got| <= 1
    && OutcomeInv(c, s.closed)
    && (id in s.pending ==> c.got == [] && Unheard(s.log, c.since, id))
    && (InHand(s, id) ==> id !in s.pending && c.got == []
                          && s.log != [] && IsFirst(s.log, c.since, id, |s.log| - 1))
    && (c.got != [] ==> RightReply(s.log, c, id, c.got[0]) && (c.got[0].Failed? ==> ReaderIsOver(s.reader)))
    && (id !in s.pending && c.got == [] && !InHand(s, id) ==> c.phase == Returned(WriteError))
  }

  predicate ReaderIsOver<B>(r: Reader<B>) {
    r.Failing? || r.Drained? || r.Ended?
  }

  /** Somebody has, or is about to be handed, the message at `i`. */
  ghost predicate Owned<B>(s: State<B>, i: nat)
    requires i < |s.log|
  {
    var m := s.log[i].msg;
    && m.id in s.calls
    && (s.calls[m.id].got == [FromWire(m, i)] || (s.reader == Delivering(m) && i == |s.log| - 1))
  }

  ghost predicate ReaderInv<B>(s: State<B>) {
    && (s.reader.Delivering? ==>
          s.reader.msg.id in s.calls && s.log != [] && s.log[|s.log| - 1] == Entry(s.reader.msg, true))
    && (s.reader.Publishing? ==> s.log != [] && s.log[|s.log| - 1] == Entry(s.reader.msg, false))
    && (s.reader.Stopped? ==> s.closed && s.log != [] && !s.log[|s.log| - 1].matched)
    && (s.reader.Ended? <==> s.eventsClosed)
    && (s.reader.Ended? ==> s.closed)
    && s.consumed <= |s.events| <= s.consumed + EVENT_ROOM
  }

  /** The events so far: all unmatched messages, but for one the reader still holds or dropped when it stopped. */
  ghost predicate EventsInv<B>(s: State<B>) {
    if (s.reader.Publishing? || s.reader.Stopped?) && s.log != [] then
      Unmatched(s.log) == s.events + [s.log[|s.log| - 1].msg]
    else
      Unmatched(s.log) == s.events
  }

  ghost predicate OwnersInv<B>(s: State<B>) {
    forall i :: 0 <= i < |s.log| ==> (s.log[i].matched <==> Owned(s, i))
  }

  ghost predicate IdsInv<B>(s: State<B>) {
    && s.nextID >= 0
    && (forall id :: id in s.calls <==> 1 <= id <= s.nextID)
    && s.pending <= s.calls.Keys
  }

  ghost predicate Inv<B>(s: State<B>) {
    && IdsInv(s)
    && ReaderInv(s)
    && EventsInv(s)
    && OwnersInv(s)
    && (forall id :: id in s.calls ==> CallInv(s, id))
  }

  // ----- Every step keeps it -----

  lemma UnmatchedSnoc<B>(log: seq<Entry<B>>, e: Entry<B>)
    ensures Unmatched(log + [e]) == Unmatched(log) + if e.matched then [] else [e.msg]
  {
    assert (log + [e])[..|log|] == log;
  }

  lemma UnheardSnoc<B>(log: seq<Entry<B>>, e: Entry<B>, since: nat, id: Id)
    requires Unheard(log, since, id) && since <= |log|
    ensures Unheard(log + [e], since, id) <==> e.msg.id != id
    ensures e.msg.id == id ==> IsFirst(log + [e], since, id, |log|)
  {
    assert (log + [e])[..|log|] == log;
    assert (log + [e])[|log|] == e;
  }

  lemma IsFirstSnoc<B>(log: seq<Entry<B>>, e: Entry<B>, since: nat, id: Id, at: nat)
    requires IsFirst(log, since, id, at)
    ensures IsFirst(log + [e], since, id, at) && (log + [e])[at] == log[at]
  {
    assert (log + [e])[..at] == log[..at];
  }

  /** A step that leaves a call, its standing and the log alone. */
  lemma CallUntouched<B>(s: State<B>, t: State<B>, id: Id)
    requires id in s.calls && CallInv(s, id)
    requires id in t.calls && t.calls[id] == s.calls[id] && t.log == s.log
    requires id in t.pending <==> id in s.pending
    requires InHand(t, id) == InHand(s, id)
    requires ReaderIsOver(s.reader) ==> ReaderIsOver(t.reader)
    requires s.closed ==> t.closed
    ensures CallInv(t, id)
  {
    hide IsFirst, Unheard, ReaderIsOver;
  }

  lemma DecodeKeepsCall<B>(s: State<B>, m: Msg<B>, id: Id)
    requires s.reader.Decoding? && 1 <= id && id in s.calls && CallInv(s, id)
    ensures CallInv(Apply(s, Decode(m)), id)
  {
    hide Unheard, IsFirst;
    var c := s.calls[id];
    var e := Entry(m, m.id != 0 && m.id in s.pending);
    if id in s.pending {
      UnheardSnoc(s.log, e, c.since, id);
    } else if c.got != [] && c.got[0].FromWire? {
      IsFirstSnoc(s.log, e, c.since, id, c.got[0].at);
    }
  }

  lemma BeginKeepsCall<B>(s: State<B>)
    requires Enabled(s, Begin) && Inv(s)
    ensures CallInv(Apply(s, Begin), s.nextID + 1)
  {
    hide Unmatched, EventsInv, OwnersInv, IsFirst;
  }

  lemma StepKeepsCall<B>(s: State<B>, st: Step<B>, id: Id)
    requires Enabled(s, st) && Inv(s)
    requires id in Apply(s, st).calls
    ensures CallInv(Apply(s, st), id)
  {
    hide Unmatched, EventsInv, OwnersInv, IsFirst, Unheard;
    var t := Apply(s, st);
    if st.Decode? {
      DecodeKeepsCall(s, st.msg, id);
    } else if id !in s.calls {
      BeginKeepsCall(s);
    } else {
      assert CallInv(s, id);
      if t.calls[id] == s.calls[id] && (id in t.pending <==> id in s.pending) && InHand(t, id) == InHand(s, id) {
        CallUntouched(s, t, id);
      }
    }
  }

  lemma StepKeepsOwner<B>(s: State<B>, st: Step<B>, i: nat)
    requires Enabled(s, st) && Inv(s)
    requires i < |Apply(s, st).log|
    ensures Apply(s, st).log[i].matched <==> Owned(Apply(s, st), i)
  {
    hide Unmatched, EventsInv, Unheard;
    var t := Apply(s, st);
    var id := t.log[i].msg.id;
    if i < |s.log| {
      assert s.log[i].matched <==> Owned(s, i);
      assert t.log[i] == s.log[i];
    }
    if id in s.calls {
      assert CallInv(s, id);
      if st.Deliver? && id == s.reader.msg.id {
        assert t.calls[id].got == [FromWire(s.reader.msg, |s.log| - 1)];
      } else if st.FailOne? && id == st.id {
        assert t.calls[id].got == [Failed(id, s.reader.error)];
      }
    }
  }

  lemma StepKeepsReader<B>(s: State<B>, st: Step<B>)
    requires Enabled(s, st) && Inv(s)
    ensures ReaderInv(Apply(s, st)) && IdsInv(Apply(s, st))
  {
    hide Unmatched, EventsInv, OwnersInv, CallInv;
  }

  lemma StepKeepsEvents<B>(s: State<B>, st: Step<B>)
    requires Enabled(s, st) && EventsInv(s) && ReaderInv(s)
    ensures EventsInv(Apply(s, st))
  {
    hide Unmatched;
    if st.Decode? {
      UnmatchedSnoc(s.log, Entry(st.msg, st.msg.id != 0 && st.msg.id in s.pending));
    } else if st.Deliver? {
      UnmatchedSnoc(s.log[..|s.log| - 1], s.log[|s.log| - 1]);
    }
  }

  /** Every step keeps the invariant. */
  lemma {:induction false} StepKeepsInv<B>(s: State<B>, st: Step<B>)
    requires Enabled(s, st) && Inv(s)
    ensures Inv(Apply(s, st))
  {
    var t := Apply(s, st);
    StepKeepsReader(s, st);
    StepKeepsEvents(s, st);
    forall i | 0 <= i < |t.log|
      ensures t.log[i].matched <==> Owned(t, i)
    {
      StepKeepsOwner(s, st, i);
    }
    forall id | id in t.calls
      ensures CallInv(t, id)
    {
      StepKeepsCall(s, st, id);
    }
    hide Apply, Enabled, Owned, CallInv, ReaderInv, EventsInv, IdsInv;
  }

  lemma {:induction false} RunKeepsInv<B>(s: State<B>, run: seq<Step<B>>)
    requires Allowed(s, run) && Inv(s)
    ensures Inv(Exec(s, run))
    decreases |run|
  {
    hide Inv, Apply, Enabled;
    if run != [] {
      StepKeepsInv(s, run[0]);
      RunKeepsInv(Apply(s, run[0]), run[1..]);
    }
  }

  lemma ReachableInv<B>(run: seq<Step<B>>)
    requires Allowed(Init(), run)
    ensures Inv(Exec(Init(), run))
  {
    RunKeepsInv(Init(), run);
  }

  // ----- What a call can count on -----

  /**
   The reader never waits for a caller: whenever it is about to put a reply on a call's channel - holding the mutex, in
   failPending - there is room, and failPending itself comes to its end.
   */
  lemma ReplySendsNeverBlock<B>(run: seq<Step<B>>)
    requires Allowed(Init(), run)
    ensures var s := Exec(Init(), run);
            && (s.reader.Delivering? ==> Enabled(s, Deliver))
            && (s.reader.Failing? && s.pending == {} ==> Enabled(s, EndFail))
            && (s.reader.Failing? ==> forall id :: id in s.pending ==> Enabled(s, FailOne(id)))
  {
    ReachableInv(run);
    var s := Exec(Init(), run);
    hide Exec, Allowed, Unheard, IsFirst, EventsInv, OwnersInv;
    if s.reader.Delivering? {
      assert CallInv(s, s.reader.msg.id);
    }
    forall id | id in s.pending
      ensures |s.calls[id].chan| == 0
    {
      assert CallInv(s, id);
    }
  }

  /**
   A call's channel is sent at most one reply, and what the call returns is that reply: the first message with the call's
   id that came in after the call began, or failPending's error if none had come.
   */
  lemma OneReplyEach<B>(run: seq<Step<B>>, id: Id)
    requires Allowed(Init(), run) && id in Exec(Init(), run).calls
    ensures var s := Exec(Init(), run);
            var c := s.calls[id];
            && |c.got| <= 1
            && (c.got != [] ==>
                  match c.got[0]
                  case FromWire(m, at) => m.id == id && IsFirst(s.log, c.since, id, at) && s.log[at].msg == m
                  case Failed(who, _) => who == id && Unheard(s.log, c.since, id))
            && (c.phase.Returned? ==>
                  match c.phase.outcome
                  case Answer(r) => c.got == [r]
                  case WriteError => c.chan == c.got
                  case ConnectionClosed => s.closed && c.chan == c.got)
            && (!c.phase.Returned? ==> c.chan == c.got)
  {
    ReachableInv(run);
    assert CallInv(Exec(Init(), run), id);
  }

  /** A call that finds a reply can return with it, and the reply is the right one. */
  lemma TakeReturnsTheReply<B>(run: seq<Step<B>>, id: Id)
    requires Allowed(Init(), run)
    requires var s := Exec(Init(), run); InPhase(s, id, Waiting) && s.calls[id].chan != []
    ensures var s := Exec(Init(), run);
            && Enabled(s, Take(id))
            && |s.calls[id].got| == 1
            && Apply(s, Take(id)).calls[id].phase == Returned(Answer(s.calls[id].got[0]))
            && RightReply(s.log, s.calls[id], id, s.calls[id].got[0])
  {
    ReachableInv(run);
    assert CallInv(Exec(Init(), run), id);
  }

  /** When a step makes a call return, it is with what the call was waiting for: its write, its reply, or the end. */
  lemma HowCallsReturn<B>(s: State<B>, st: Step<B>, id: Id)
    requires Enabled(s, st) && Inv(s)
    requires id in s.calls && !s.calls[id].phase.Returned?
    ensures id in Apply(s, st).calls
    ensures var before, after := s.calls[id], Apply(s, st).calls[id];
            after.phase.Returned? ==>
              match after.phase.outcome
              case Answer(r) => before.phase.Waiting? && before.chan == [r]
              case WriteError => before.phase.Writing? && id !in Apply(s, st).pending
              case ConnectionClosed => before.phase.Waiting? && s.closed
  {
    hide Unmatched, EventsInv, OwnersInv, Unheard, IsFirst, RightReply;
    assert CallInv(s, id);
  }

  /** A request, the answer to it, and the call's return. */
  function OneCall<B>(id: Id, body: B): seq<Step<B>> {
    [Begin] + ([Wrote(id)] + ([Decode(Msg(id, body))] + ([Deliver] + ([Take(id)] + []))))
  }

  /** From every state in which the reader is listening, a call can be made and get its answer, which is no event. */
  lemma CallsGoThrough<B>(s: State<B>, body: B)
    requires Inv(s) && s.reader.Decoding?
    ensures var id := s.nextID + 1;
            && Allowed(s, OneCall(id, body))
            && var t := Exec(s, OneCall(id, body));
               && id in t.calls && t.calls[id].phase == Returned(Answer(FromWire(Msg(id, body), |s.log|)))
               && t.reader.Decoding? && t.events == s.events && t.pending == s.pending && t.closed == s.closed
  {
    hide ReaderInv, EventsInv, OwnersInv, CallInv, Exec, Allowed;
    var id := s.nextID + 1;
    var m := Msg(id, body);
    var s1 := Apply(s, Begin);
    var s2 := Apply(s1, Wrote(id));
    var s3 := Apply(s2, Decode(m));
    var s4 := Apply(s3, Deliver);
    var s5 := Apply(s4, Take(id));
    assert s.pending + {id} - {id} == s.pending;
    NoSteps(s5);
    Chain(s4, Take(id), []);
    Chain(s3, Deliver, [Take(id)] + []);
    Chain(s2, Decode(m), [Deliver] + ([Take(id)] + []));
    Chain(s1, Wrote(id), [Decode(m)] + ([Deliver] + ([Take(id)] + [])));
    Chain(s, Begin, [Wrote(id)] + ([Decode(m)] + ([Deliver] + ([Take(id)] + []))));
  }

  /**
   Events carries the messages that no call received, in wire order; all of them, except for one the reader still holds,
   or held when it gave up. The queue never exceeds its room.
   */
  lemma EventsAreTheRest<B>(run: seq<Step<B>>)
    requires Allowed(Init(), run)
    ensures var s := Exec(Init(), run);
            && s.events <= Unmatched(s.log)
            && |Unmatched(s.log)| <= |s.events| + (if s.reader.Publishing? || s.reader.Stopped? then 1 else 0)
            && |s.events| - s.consumed <= 1024
            && forall i :: 0 <= i < |s.log| ==> (s.log[i].matched <==> Owned(s, i))
  {
    ReachableInv(run);
    hide Exec, Allowed, CallInv, IdsInv, Owned, Unmatched;
  }

  /** When failPending is through, every call so far has its reply, or had failed to write. */
  lemma NobodyIsForgotten<B>(run: seq<Step<B>>, id: Id)
    requires Allowed(Init(), run)
    requires var s := Exec(Init(), run); Enabled(s, EndFail) && id in s.calls
    ensures var c := Exec(Init(), run).calls[id];
            |c.got| == 1 || c.phase == Returned(WriteError)
  {
    ReachableInv(run);
    assert CallInv(Exec(Init(), run), id);
  }

  /** Once the reader has returned, no call waits for ever: even one that begins afterwards sees the connection closed. */
  lemma CallsReturnAfterTheReader<B>(run: seq<Step<B>>, id: Id)
    requires Allowed(Init(), run)
    requires var s := Exec(Init(), run); (s.reader.Ended? || s.reader.Stopped?) && InPhase(s, id, Waiting)
    ensures Enabled(Exec(Init(), run), GiveUp(id))
  {
    ReachableInv(run);
  }

  /** After the reader has returned nothing moves it, and Events stays closed or open. */
  lemma {:induction false} EventsStayAsTheyAre<B>(s: State<B>, run: seq<Step<B>>)
    requires Inv(s) && Allowed(s, run) && (s.reader.Ended? || s.reader.Stopped?)
    ensures Exec(s, run).reader == s.reader
    ensures Exec(s, run).eventsClosed <==> s.reader.Ended?
    decreases |run|
  {
    if run != [] {
      StepKeepsInv(s, run[0]);
      assert Apply(s, run[0]).reader == s.reader;
      hide Inv, Apply, Enabled;
      EventsStayAsTheyAre(Apply(s, run[0]), run[1..]);
    }
  }

  lemma Chain<B>(s: State<B>, st: Step<B>, rest: seq<Step<B>>)
    requires Enabled(s, st) && Allowed(Apply(s, st), rest)
    ensures Allowed(s, [st] + rest) && Exec(s, [st] + rest) == Exec(Apply(s, st), rest)
  {
    hide Enabled, Apply;
    assert ([st] + rest)[1..] == rest;
  }

  /** Without Close the reader does not give up, and the connection is closed only after Events. */
  predicate Orderly<B>(s: State<B>) {
    !s.reader.Stopped? && (s.closed ==> ReaderIsOver(s.reader)) && (s.reader.Ended? ==> s.eventsClosed)
  }

  lemma StepKeepsOrderly<B>(s: State<B>, st: Step<B>)
    requires Orderly(s) && Enabled(s, st) && !st.Close?
    ensures Orderly(Apply(s, st))
  {
  }

  lemma {:induction false} RunKeepsOrderly<B>(s: State<B>, run: seq<Step<B>>)
    requires Orderly(s) && Allowed(s, run) && Close !in run
    ensures Orderly(Exec(s, run))
    decreases |run|
  {
    hide Orderly, Apply, Enabled;
    if run != [] {
      assert run[0] in run;
      StepKeepsOrderly(s, run[0]);
      RunKeepsOrderly(Apply(s, run[0]), run[1..]);
    }
  }

  predicate ReaderReturned<B>(s: State<B>) {
    s.reader.Ended? || s.reader.Stopped?
  }

  /** However things go on without another Close, when the reader returns Events is closed. */
  ghost predicate ClosesEvents<B(!new)>(s: State<B>) {
    forall rest :: Allowed(s, rest) && Close !in rest && ReaderReturned(Exec(s, rest)) ==> Exec(s, rest).eventsClosed
  }

  /** With the connection closed, a reader that has met no error can stop in the middle of an event. */
  lemma StopsInTheEnd<B>(s: State<B>, body: B) returns (rest: seq<Step<B>>)
    requires Inv(s) && s.closed && !ReaderIsOver(s.reader)
    ensures Allowed(s, rest) && Close !in rest && Exec(s, rest).reader.Stopped?
    decreases if s.reader.Delivering? then 3 else if s.reader.Decoding? then 2 else if s.reader.Publishing? then 1 else 0
  {
    hide Unmatched, EventsInv, OwnersInv, Unheard, IsFirst;
    if s.reader.Stopped? {
      return [];
    }
    var st := Abandon;
    if s.reader.Delivering? {
      assert CallInv(s, s.reader.msg.id);
      st := Deliver;
    } else if s.reader.Decoding? {
      st := Decode(Msg(0, body));
    }
    StepKeepsInv(s, st);
    var more := StopsInTheEnd(Apply(s, st), body);
    Chain(s, st, more);
    rest := [st] + more;
  }

  /**
   In every reachable state: Events is sure to be closed when the reader returns, if and only if the connection is not
   closed yet, or the reader has met its read error already.
   */
  lemma EventsAreClosedIff<B(!new)>(run: seq<Step<B>>, body: B)
    requires Allowed(Init(), run)
    ensures var s := Exec(Init(), run);
            ClosesEvents(s) <==> !s.closed || ReaderIsOver(s.reader)
  {
    ReachableInv(run);
    var s := Exec(Init(), run);
    if !s.closed || ReaderIsOver(s.reader) {
      forall rest | Allowed(s, rest) && Close !in rest && ReaderReturned(Exec(s, rest))
        ensures Exec(s, rest).eventsClosed
      {
        RunKeepsOrderly(s, rest);
      }
    } else {
      var rest := StopsInTheEnd(s, body);
      RunKeepsInv(s, rest);
      assert ReaderInv(Exec(s, rest));
    }
  }

  /** So an application that never calls Close can count on it. */
  lemma EventsCloseWithoutClose<B>(run: seq<Step<B>>)
    requires Allowed(Init(), run) && Close !in run
    ensures var s := Exec(Init(), run);
            !s.reader.Stopped? && (s.closed ==> s.reader.Ended?) && (s.reader.Ended? <==> s.eventsClosed)
  {
    ReachableInv(run);
    RunKeepsClosedLast(Init(), run);
  }

  lemma {:induction false} RunKeepsClosedLast<B>(s: State<B>, run: seq<Step<B>>)
    requires Allowed(s, run) && Close !in run
    requires !s.reader.Stopped? && (s.closed ==> s.reader.Ended?)
    ensures var t := Exec(s, run);
            !t.reader.Stopped? && (t.closed ==> t.reader.Ended?)
    decreases |run|
  {
    if run != [] {
      assert run[0] in run;
      RunKeepsClosedLast(Apply(s, run[0]), run[1..]);
    }
  }

  /** A Close, and the reader drops the event it holds. */
  function CloseAndStop<B>(): seq<Step<B>> {
    [Close] + ([Abandon] + [])
  }

  /** And Close while the reader has an event to deliver can always leave Events open for ever. */
  lemma CloseUnderAnEvent<B>(s: State<B>, later: seq<Step<B>>)
    requires Inv(s) && s.reader.Publishing?
    ensures Allowed(s, CloseAndStop())
    ensures var t := Exec(s, CloseAndStop());
            t.closed && t.reader.Stopped? && (Allowed(t, later) ==> !Exec(t, later).eventsClosed)
  {
    var s1 := Apply(s, Close);
    Chain(s1, Abandon, []);
    Chain(s, Close, [Abandon] + []);
    var t := Exec(s, CloseAndStop());
    assert t == Apply(s1, Abandon);
    RunKeepsInv(s, CloseAndStop());
    if Allowed(t, later) {
      EventsStayAsTheyAre(t, later);
    }
  }

  /** The application closes the connection while the reader is about to put the first event on the queue. */
  function CloseUnderTheReader<B>(m: Msg<B>): seq<Step<B>> {
    [Decode(m)] + CloseAndStop()
  }

  /** The reader can return with Events left open, so a loop over Events need not end with the connection. */
  lemma EventsMayStayOpen<B>(m: Msg<B>, later: seq<Step<B>>)
    ensures Allowed(Init(), CloseUnderTheReader(m))
    ensures var s := Exec(Init(), CloseUnderTheReader(m));
            && s.closed && s.reader.Stopped?
            && (Allowed(s, later) ==> !Exec(s, later).eventsClosed)
  {
    NoSteps<B>(Init());
    ReachableInv<B>([]);
    StepKeepsInv(Init(), Decode(m));
    var s1 := Apply(Init(), Decode(m));
    CloseUnderAnEvent(s1, later);
    Chain(Init(), Decode(m), CloseAndStop());
  }

  // ----- The client object -----

  /** What a reply looks like to the caller. */
  function Carried<B>(r: Reply<B>): Msg<B> {
    match r
    case FromWire(m, _) => m
    case Failed(id, error) => Msg(id, error)
  }

  /** A queue and the replies it stands for. */
  predicate Carries<B(==)>(queue: seq<Msg<B>>, replies: seq<Reply<B>>) {
    |queue| == |replies| && forall k :: 0 <= k < |queue| ==> queue[k] == Carried(replies[k])
  }

  /** The next key of a map's iteration. */
  method AnyOf<T>(ids: set<T>) returns (id: T)
    requires ids != {}
    ensures id in ids
  {
    id :| id in ids;
  }

  /** A call's channel. */
  class Channel<B> {
    ghost const owner: Id
    var queue: seq<Msg<B>>

    constructor (ghost owner: Id)
      ensures this.owner == owner && queue == []
    {
      this.owner := owner;
      queue := [];
    }
  }

  /** What came of a message for Events: queued; the queue is full; dropped, the connection being closed. */
  datatype Offered = Queued | Waits | Dropped

  class Client<B> {
    var nextID: Id
    var pending: map<Id, Channel<B>>
    var events: seq<Msg<B>>                   // everything put on the Events queue
    var consumed: nat                         // how many of them the application has taken
    var closed: bool
    ghost var channels: map<Id, Channel<B>>   // the channels of all calls

    constructor ()
      ensures Shows(Init())
    {
      nextID, pending, events, consumed, closed := 0, map[], [], 0, false;
      channels := map[];
    }

    /** The object is in the state `s` of the step system. */
    ghost predicate Shows(s: State<B>)
      reads this, channels.Values
    {
      && nextID == s.nextID && events == s.events && consumed == s.consumed && closed == s.closed
      && pending.Keys == s.pending && channels.Keys == s.calls.Keys
      && (forall id :: id in pending ==> id in channels && pending[id] == channels[id])
      && (forall id :: id in channels ==>
            channels[id].owner == id && Carries(channels[id].queue, s.calls[id].chan))
    }

    /** The first critical section of call. */
    method BeginCall(ghost s: State<B>) returns (id: Id, ch: Channel<B>)
      requires Shows(s) && IdsInv(s) && Enabled(s, Begin)
      modifies this`nextID, this`pending, this`channels
      ensures Shows(Apply(s, Begin)) && id == s.nextID + 1 && id !in old(pending)
      ensures fresh(ch) && pending == old(pending)[id := ch]
    {
      assert s.nextID + 1 !in channels;
      hide Carried, Enabled, Apply, IdsInv;
      BeginApplied(s);
      nextID := nextID + 1;
      id := nextID;
      ch := new Channel(id);
      pending := pending[id := ch];
      channels := channels[id := ch];
    }

    /** What call does when its request cannot be written. */
    method Forget(id: Id, ghost s: State<B>)
      requires Shows(s) && Enabled(s, WriteFailed(id))
      modifies this`pending
      ensures Shows(Apply(s, WriteFailed(id))) && pending == old(pending) - {id}
    {
      pending := pending - {id};
    }

    /** The select at the end of call, once one of its cases is ready: the reply, or none if the connection is closed. */
    method Await(id: Id, ch: Channel<B>, ghost s: State<B>) returns (reply: Option<Msg<B>>)
      requires Shows(s) && InPhase(s, id, Waiting) && id in channels && channels[id] == ch
      requires ch.queue != [] || closed
      modifies ch
      ensures reply.Some? ==> old(ch.queue) == [reply.value] + ch.queue
                              && Enabled(s, Take(id)) && Shows(Apply(s, Take(id)))
      ensures reply.None? ==> closed && ch.queue == old(ch.queue)
                              && Enabled(s, GiveUp(id)) && Shows(Apply(s, GiveUp(id)))
    {
      hide Carried;
      if {
        case ch.queue != [] =>
          reply := Some(ch.queue[0]);
          ch.queue := ch.queue[1..];
        case closed =>
          reply := None;
      }
    }

    /** What the application does: take an event, close the connection. */
    method NextEvent(ghost s: State<B>) returns (m: Msg<B>)
      requires Shows(s) && ReaderInv(s) && Enabled(s, Consume)
      modifies this`consumed
      ensures Shows(Apply(s, Consume)) && m == old(events)[old(consumed)] && consumed == old(consumed) + 1
    {
      m := events[consumed];
      consumed := consumed + 1;
    }

    method Shutdown(ghost s: State<B>)
      requires Shows(s)
      modifies this`closed
      ensures Shows(Apply(s, Close)) && closed
    {
      closed := true;
    }

    /** The reader's select for a message that goes to Events, once. */
    method Offer(m: Msg<B>, ghost s: State<B>) returns (o: Offered)
      requires Shows(s) && s.reader == Publishing(m)
      modifies this`events
      ensures o.Queued? ==> Enabled(s, Publish) && Shows(Apply(s, Publish)) && events == old(events) + [m]
      ensures o.Dropped? ==> Enabled(s, Abandon) && Shows(Apply(s, Abandon)) && events == old(events)
      ensures |old(events)| - consumed < 1024 && !closed ==> o.Queued?
      ensures o.Waits? ==> !Enabled(s, Publish) && !Enabled(s, Abandon) && Shows(s) && events == old(events)
    {
      if {
        case |events| - consumed < EVENT_ROOM =>
          events := events + [m];
          o := Queued;
        case closed =>
          o := Dropped;
        case |events| - consumed >= EVENT_ROOM && !closed =>
          o := Waits;
      }
    }

    /** The steps that a message takes the reader. */
    static function Routed(m: Msg<B>, matched: bool, o: Offered): seq<Step<B>> {
      if matched then [Decode(m), Deliver]
      else match o
           case Queued => [Decode(m), Publish]
           case Dropped => [Decode(m), Abandon]
           case Waits => [Decode(m)]
    }

    /** The body of the reader's loop, up to the first try: a reply goes to its waiter, anything else to Events. */
    method Route(m: Msg<B>, ghost s: State<B>) returns (o: Offered)
      requires Shows(s) && Inv(s) && s.reader.Decoding?
      modifies this`pending, this`events, pending.Values
      ensures var matched := m.id != 0 && m.id in old(pending);
              && Allowed(s, Routed(m, matched, o)) && Shows(Exec(s, Routed(m, matched, o)))
              && pending == (if matched then old(pending) - {m.id} else old(pending))
              && events == old(events) + (if !matched && o.Queued? then [m] else [])
              && (matched ==> old(pending)[m.id].queue == [m])
      ensures m.id == 0 || m.id !in old(pending) ==>
                && (o.Waits? ==> |events| - consumed >= EVENT_ROOM && !closed)
                && (o.Dropped? ==> closed)
    {
      hide Unmatched, EventsInv, OwnersInv, Unheard, IsFirst, Exec, Allowed;
      OneStep(s, Decode(m));
      if m.id != 0 && m.id in pending {
        assert CallInv(s, m.id);
        TwoSteps(s, Decode(m), Deliver);
        Answer(m, s);
        return Queued;
      }
      ghost var t := Apply(s, Decode(m));
      StillShows(s, t);
      o := Offer(m, t);
      if o.Queued? {
        TwoSteps(s, Decode(m), Publish);
      } else if o.Dropped? {
        TwoSteps(s, Decode(m), Abandon);
      }
    }

    /** The reply to a pending call. */
    method Answer(m: Msg<B>, ghost s: State<B>)
      requires Shows(s) && Inv(s) && s.reader.Decoding? && m.id != 0 && m.id in pending
      modifies this`pending, pending[m.id]
      ensures Enabled(Apply(s, Decode(m)), Deliver) && Shows(Apply(Apply(s, Decode(m)), Deliver))
      ensures pending == old(pending) - {m.id} && old(pending)[m.id].queue == [m]
    {
      hide Unmatched, EventsInv, OwnersInv, Unheard, IsFirst;
      assert CallInv(s, m.id);
      var ch := pending[m.id];
      pending := pending - {m.id};
      ch.queue := ch.queue + [m];
    }

    /** failPending's loop body: one pending call gets the error. */
    method FailCall(id: Id, error: B, ghost s: State<B>)
      requires Shows(s) && id in pending && id in s.calls && CallInv(s, id) && s.reader == Failing(error)
      modifies this`pending, pending[id]
      ensures channels == old(channels)
      ensures Enabled(s, FailOne(id)) && Shows(Apply(s, FailOne(id)))
      ensures pending == old(pending) - {id} && old(pending)[id].queue == [Msg(id, error)]
    {
      hide RightReply, Apply, Enabled;
      FailOneApplied(s, id);
      var ch := pending[id];
      ch.queue := ch.queue + [Msg(id, error)];
      pending := pending - {id};
    }

    /** Every pending call gets the error, in no particular order. */
    method FailPending(error: B, ghost s: State<B>) returns (ghost run: seq<Step<B>>)
      requires Shows(s) && Inv(s) && s.reader == Failing(error)
      modifies this`pending, pending.Values
      ensures channels == old(channels)
      ensures Allowed(s, run) && Shows(Exec(s, run)) && Exec(s, run).reader.Drained?
      ensures pending == map[]
      ensures forall id :: id in old(pending) ==> old(pending)[id].queue == [Msg(id, error)]
    {
      hide Inv, Exec, Allowed, Apply, Enabled, Shows, Underway;
      run := [];
      FailingBegins(s, error);
      ghost var t := s;
      InStep(t);
      while pending != map[]
        invariant Underway(s, run, t, error) && Shows(t) && pending.Keys == t.pending
        invariant forall id :: id in pending ==> id in old(pending) && pending[id] == old(pending)[id]
        decreases |pending.Keys|
      {
        assert pending.Keys != {};
        var id := AnyOf(pending.Keys);
        FailingGoesOn(s, run, t, error, id);
        FailCall(id, error, t);
        run := run + [FailOne(id)];
        t := Apply(t, FailOne(id));
        InStep(t);
      }
      FailingEnds(s, run, t, error);
      run := run + [EndFail];
      StillShows(t, Exec(s, run));
      AllFailed(t, s.pending, error);
    }

    lemma InStep(s: State<B>)
      requires Shows(s)
      ensures pending.Keys == s.pending && channels.Keys == s.calls.Keys
      ensures forall id :: id in pending ==> id in channels && pending[id] == channels[id]
    {
    }

    lemma AllFailed(s: State<B>, ids: set<Id>, error: B)
      requires Shows(s) && ids <= s.calls.Keys
      requires forall id :: id in ids ==> s.calls[id].chan == [Failed(id, error)]
      ensures forall id :: id in ids ==> channels[id].queue == [Msg(id, error)]
    {
      forall id | id in ids
        ensures channels[id].queue == [Msg(id, error)]
      {
        assert Carries(channels[id].queue, s.calls[id].chan);
      }
    }

    lemma StillShows(s: State<B>, t: State<B>)
      requires Shows(s) && t == s.(reader := t.reader, log := t.log)
      ensures Shows(t)
    {
    }
  }

  /** failPending, begun in `s`, has come to `t`. */
  ghost predicate Underway<B>(s: State<B>, run: seq<Step<B>>, t: State<B>, error: B) {
    && Allowed(s, run) && Exec(s, run) == t && Inv(t) && t.reader == Failing(error)
    && t.pending <= s.pending <= t.calls.Keys
    && (forall id :: id in s.pending && id !in t.pending ==> t.calls[id].chan == [Failed(id, error)])
  }

  lemma FailingBegins<B>(s: State<B>, error: B)
    requires Inv(s) && s.reader == Failing(error)
    ensures Underway(s, [], s, error)
  {
    NoSteps(s);
  }

  lemma FailingGoesOn<B>(s: State<B>, run: seq<Step<B>>, t: State<B>, error: B, id: Id)
    requires Underway(s, run, t, error) && id in t.pending
    ensures id in t.calls && CallInv(t, id) && t.reader == Failing(error)
    ensures Enabled(t, FailOne(id)) && Underway(s, run + [FailOne(id)], Apply(t, FailOne(id)), error)
  {
    assert CallInv(t, id);
    FailOneApplied(t, id);
    OneMore(s, run, FailOne(id));
    StepKeepsInv(t, FailOne(id));
    hide Inv, CallInv, Exec, Allowed, Apply, Enabled;
  }

  lemma FailingEnds<B>(s: State<B>, run: seq<Step<B>>, t: State<B>, error: B)
    requires Underway(s, run, t, error) && t.pending == {}
    ensures Allowed(s, run + [EndFail]) && Exec(s, run + [EndFail]) == t.(reader := Drained)
    ensures s.pending <= t.calls.Keys
    ensures forall id :: id in s.pending ==> t.calls[id].chan == [Failed(id, error)]
  {
    OneMore(s, run, EndFail);
  }

  lemma BeginApplied<B>(s: State<B>)
    requires Enabled(s, Begin)
    ensures var id := s.nextID + 1;
            Apply(s, Begin)
            == s.(nextID := id, pending := s.pending + {id}, calls := s.calls[id := Call(|s.log|, Writing, [], [])])
  {
  }

  lemma FailOneApplied<B>(s: State<B>, id: Id)
    requires s.reader.Failing? && id in s.pending && id in s.calls && CallInv(s, id)
    ensures Enabled(s, FailOne(id)) && s.calls[id].chan == []
    ensures var r := Failed(id, s.reader.error);
            Apply(s, FailOne(id))
            == s.(pending := s.pending - {id}, calls := s.calls[id := s.calls[id].(chan := [r], got := [r])])
  {
    assert Put(s.calls[id], Failed(id, s.reader.error)).chan == [Failed(id, s.reader.error)];
  }

  lemma NoSteps<B>(s: State<B>)
    ensures Allowed(s, []) && Exec(s, []) == s
  {
  }

  lemma OneStep<B>(s: State<B>, a: Step<B>)
    requires Enabled(s, a)
    ensures Allowed(s, [a]) && Exec(s, [a]) == Apply(s, a)
  {
    hide Enabled, Apply;
    NoSteps(Apply(s, a));
    Chain(s, a, []);
    assert [a] + [] == [a];
  }

  lemma TwoSteps<B>(s: State<B>, a: Step<B>, b: Step<B>)
    requires Enabled(s, a) && Enabled(Apply(s, a), b)
    ensures Allowed(s, [a, b]) && Exec(s, [a, b]) == Apply(Apply(s, a), b)
  {
    hide Enabled, Apply;
    NoSteps(Apply(Apply(s, a), b));
    Chain(Apply(s, a), b, []);
    Chain(s, a, [b] + []);
    assert [a] + ([b] + []) == [a, b];
  }

  lemma {:induction false} OneMore<B>(s: State<B>, run: seq<Step<B>>, st: Step<B>)
    requires Allowed(s, run) && Enabled(Exec(s, run), st)
    ensures Allowed(s, run + [st]) && Exec(s, run + [st]) == Apply(Exec(s, run), st)
    decreases |run|
  {
    hide Enabled, Apply;
    if run == [] {
      assert [] + [st] == [st] + [];
      NoSteps(Apply(s, st));
      Chain(s, st, []);
    } else {
      OneMore(Apply(s, run[0]), run[1..], st);
      Chain(s, run[0], run[1..] + [st]);
      assert [run[0]] + (run[1..] + [st]) == run + [st];
    }
  }
}
