/**
 Creating, killing and ending sessions as a step system (internal/server/server.go, internal/server/session.go,
 pkg/ptysession/session.go).

 Creators, read loops and killers are threads; a step is one atomic access: a body under the server's lock, a body
 under the session's lock, one load or store of a flag, or one send. Steps of different threads follow one another
 in any order.
 */
module Lifecycle {
  import opened Registry

  type Sid = nat     // a session object
  type Client = nat  // a connection
  type Thread = nat  // a call of Kill

  datatype Note = ExitNote | ClosedNote

  /** Where the thread that created a session is: before addSession, past it, discarding its duplicate, done with that. */
  datatype Creator = Spawned | Won | Lost | Discarded

  /** Whom onExit is dealing with, and what comes next for that connection. */
  datatype Turn = Between | ToExit(c: Client) | ToClose(c: Client)

  /** Where the read loop is: reading; child reaped; in onExit; out of the table; done. */
  datatype Reader = Reading | Reaped | Notifying(todo: set<Client>, turn: Turn) | Withdrawn | Finished

  datatype Session = Session(
    key: Key,
    creator: Creator,
    reader: Reader,
    alive: bool,
    killed: bool,
    attached: set<Client>,
    told: set<Client>,              // whom onExit found attached
    notes: map<Client, seq<Note>>,  // what onExit has sent to whom
    exits: nat,                     // how often onExit has begun
    killedFirst: bool,              // killed was set before alive was cleared
    late: bool)                     // addSession ran after the session had withdrawn

  /**
   Where a call of Kill is: past its first test; past setting the flag; returned after its wait; returned at once.

   The first test loads `alive` and then `killed`. Neither ever goes back, so both loads count as one step: the first
   load when it finds `alive` set, the second otherwise.
   */
  datatype Kill = Entered(sid: Sid) | Marked(sid: Sid) | Waited(sid: Sid) | Skipped(sid: Sid)

  datatype State = State(sessions: map<Sid, Session>, table: map<Key, Sid>, kills: map<Thread, Kill>)

  function Init(): State {
    State(map[], map[], map[])
  }

  datatype Step =
    | Spawn(sid: Sid, key: Key)
    | Add(sid: Sid)
    | Attach(sid: Sid, c: Client)
    | Detach(sid: Sid, c: Client)
    | Reap(sid: Sid)
    | Clear(sid: Sid)
    | Check(sid: Sid, c: Client)
    | SendExit(sid: Sid)
    | SendClosed(sid: Sid)
    | Withdraw(sid: Sid)
    | Finish(sid: Sid)
    | EnterKill(t: Thread, sid: Sid)
    | MarkKilled(t: Thread)
    | EndKill(t: Thread)
    | Discard(sid: Sid, t: Thread)

  predicate Gone(r: Reader) {
    r.Withdrawn? || r.Finished?
  }

  predicate Enabled(s: State, st: Step) {
    match st
    case Spawn(sid, _) => sid !in s.sessions
    case Add(sid) => sid in s.sessions && s.sessions[sid].creator.Spawned?
    case Attach(sid, _) => sid in s.sessions
    case Detach(sid, _) => sid in s.sessions
    case Reap(sid) => sid in s.sessions && s.sessions[sid].reader.Reading?
    case Clear(sid) => sid in s.sessions && s.sessions[sid].reader.Reaped?
    case Check(sid, c) =>
      && sid in s.sessions && s.sessions[sid].reader.Notifying?
      && s.sessions[sid].reader.turn.Between? && c in s.sessions[sid].reader.todo
    case SendExit(sid) =>
      sid in s.sessions && s.sessions[sid].reader.Notifying? && s.sessions[sid].reader.turn.ToExit?
    case SendClosed(sid) =>
      sid in s.sessions && s.sessions[sid].reader.Notifying? && s.sessions[sid].reader.turn.ToClose?
    case Withdraw(sid) => sid in s.sessions && s.sessions[sid].reader == Notifying({}, Between)
    case Finish(sid) => sid in s.sessions && s.sessions[sid].reader.Withdrawn?
    case EnterKill(t, sid) => t !in s.kills && sid in s.sessions
    case MarkKilled(t) => t in s.kills && s.kills[t].Entered? && s.kills[t].sid in s.sessions
    case EndKill(t) =>
      t in s.kills && s.kills[t].Marked? && s.kills[t].sid in s.sessions && s.sessions[s.kills[t].sid].reader.Finished?
    case Discard(sid, t) =>
      && sid in s.sessions && s.sessions[sid].creator.Lost?
      && t in s.kills && s.kills[t].sid == sid && (s.kills[t].Waited? || s.kills[t].Skipped?)
  }

  function Sent(x: Session, c: Client): seq<Note> {
    if c in x.notes then x.notes[c] else []
  }

  /** What a step does to the session it is about. */
  function Changed(s: State, st: Step, x: Session): Session
    requires Enabled(s, st)
    requires st.SendExit? ==> x.reader.Notifying? && x.reader.turn.ToExit?
    requires st.SendClosed? ==> x.reader.Notifying? && x.reader.turn.ToClose?
    requires st.Check? ==> x.reader.Notifying?
  {
    match st
    case Spawn(_, key) => Session(key, Spawned, Reading, true, false, {}, {}, map[], 0, false, false)
    case Add(sid) =>
      if Held(s, x.key) then x.(creator := Lost) else x.(creator := Won, late := Gone(x.reader))
    case Attach(_, c) => x.(attached := x.attached + {c})
    case Detach(_, c) => x.(attached := x.attached - {c})
    case Reap(_) => x.(reader := Reaped, alive := false, killedFirst := x.killed)
    case Clear(_) =>
      x.(reader := Notifying(x.attached, Between), told := x.attached, attached := {}, exits := x.exits + 1)
    case Check(_, c) => x.(reader := Notifying(x.reader.todo, if x.killed then ToClose(c) else ToExit(c)))
    case SendExit(_) =>
      var c := x.reader.turn.c;
      x.(reader := Notifying(x.reader.todo, ToClose(c)), notes := x.notes[c := Sent(x, c) + [ExitNote]])
    case SendClosed(_) =>
      var c := x.reader.turn.c;
      x.(reader := Notifying(x.reader.todo - {c}, Between), notes := x.notes[c := Sent(x, c) + [ClosedNote]])
    case Withdraw(_) => x.(reader := Withdrawn)
    case Finish(_) => x.(reader := Finished)
    case EnterKill(_, _) => x
    case MarkKilled(_) => x.(killed := true)
    case EndKill(_) => x
    case Discard(_, _) => x.(creator := Discarded)
  }

  /** A live session holds the key. */
  predicate Held(s: State, key: Key) {
    key in s.table && s.table[key] in s.sessions && s.sessions[s.table[key]].alive
  }

  function Subject(s: State, st: Step): Sid
    requires Enabled(s, st)
  {
    match st
    case MarkKilled(t) => s.kills[t].sid
    case EndKill(t) => s.kills[t].sid
    case _ => st.sid
  }

  const NOBODY: Session := Session(Key("", ""), Spawned, Reading, true, false, {}, {}, map[], 0, false, false)

  function Apply(s: State, st: Step): State
    requires Enabled(s, st)
  {
    var sid := Subject(s, st);
    var x := if sid in s.sessions then s.sessions[sid] else NOBODY;
    State(s.sessions[sid := Changed(s, st, x)], NewTable(s, st, x), NewKills(s, st, x))
  }

  function NewTable(s: State, st: Step, x: Session): map<Key, Sid> {
    match st
    case Add(sid) => AfterAdd(s.table, x.key, sid, Held(s, x.key))
    case Withdraw(sid) => AfterRemove(s.table, x.key, sid)
    case _ => s.table
  }

  function NewKills(s: State, st: Step, x: Session): map<Thread, Kill>
    requires Enabled(s, st)
  {
    match st
    case EnterKill(t, sid) => s.kills[t := if !x.alive && x.killed then Skipped(sid) else Entered(sid)]
    case MarkKilled(t) => s.kills[t := Marked(s.kills[t].sid)]
    case EndKill(t) => s.kills[t := Waited(s.kills[t].sid)]
    case _ => s.kills
  }

  predicate Allowed(s: State, run: seq<Step>)
    decreases |run|
  {
    run == [] || (Enabled(s, run[0]) && Allowed(Apply(s, run[0]), run[1..]))
  }

  function Exec(s: State, run: seq<Step>): State
    requires Allowed(s, run)
    decreases |run|
  {
    if run == [] then s else Exec(Apply(s, run[0]), run[1..])
  }

  // ----- The invariant -----

  /** All that a connection which was attached at the end is sent: no exit code if the kill came before the end. */
  predicate Complete(x: Session, ns: seq<Note>) {
    || (ns == [ClosedNote] && x.killed)
    || (ns == [ExitNote, ClosedNote] && !x.killedFirst)
  }

  predicate NotesSoFar(x: Session, c: Client) {
    var ns := Sent(x, c);
    match x.reader
    case Reading => ns == []
    case Reaped => ns == []
    case Notifying(todo, turn) =>
      if c !in x.told then ns == []
      else if c !in todo then Complete(x, ns)
      else if turn == ToClose(c) then (ns == [] && x.killed) || (ns == [ExitNote] && !x.killedFirst)
      else ns == []
    case _ => if c in x.told then Complete(x, ns) else ns == []
  }

  /** What holds of a session by itself. */
  ghost predicate SessionInv(x: Session) {
    && (x.alive <==> x.reader.Reading?)
    && (x.killedFirst ==> x.killed && !x.reader.Reading?)
    && x.exits == (if x.reader.Notifying? || Gone(x.reader) then 1 else 0)
    && (x.late ==> x.creator.Won? && Gone(x.reader))
    && (x.creator.Discarded? ==> !x.alive)
    && (x.reader.Notifying? ==>
          && x.reader.todo <= x.told
          && (x.reader.turn.ToExit? ==> x.reader.turn.c in x.reader.todo && !x.killedFirst)
          && (x.reader.turn.ToClose? ==> x.reader.turn.c in x.reader.todo))
    && (forall c :: NotesSoFar(x, c))
  }

  predicate Listed(table: map<Key, Sid>, sid: Sid, key: Key) {
    key in table && table[key] == sid
  }

  /** A live session is listed, unless its creator has yet to offer it or is discarding it. */
  predicate TableInv(table: map<Key, Sid>, sid: Sid, x: Session) {
    && (x.creator.Won? && x.alive ==> Listed(table, sid, x.key))
    && (Listed(table, sid, x.key) ==> x.creator.Won? && (Gone(x.reader) ==> x.late))
  }

  ghost predicate KeysInv(s: State) {
    forall k :: k in s.table ==> s.table[k] in s.sessions && s.sessions[s.table[k]].key == k
  }

  ghost predicate KillInv(s: State, t: Thread)
    requires t in s.kills
  {
    var k := s.kills[t];
    && k.sid in s.sessions
    && (k.Marked? || k.Waited? ==> s.sessions[k.sid].killed)
    && (k.Waited? ==> s.sessions[k.sid].reader.Finished?)
    && (k.Skipped? ==> !s.sessions[k.sid].alive)
  }

  ghost predicate Inv(s: State) {
    && (forall sid :: sid in s.sessions ==> SessionInv(s.sessions[sid]))
    && (forall sid :: sid in s.sessions ==> TableInv(s.table, sid, s.sessions[sid]))
    && KeysInv(s)
    && (forall t :: t in s.kills ==> KillInv(s, t))
  }

  /** The session a step is about, before the step. */
  function Before(s: State, st: Step): Session
    requires Enabled(s, st)
  {
    var sid := Subject(s, st);
    if sid in s.sessions then s.sessions[sid] else NOBODY
  }

  lemma NotesStep(s: State, st: Step, x: Session, c: Client)
    requires Enabled(s, st) && x == Before(s, st)
    requires !st.Spawn? ==> SessionInv(x)
    ensures NotesSoFar(Changed(s, st, x), c)
  {
    hide Held, NewTable, NewKills;
    if !st.Spawn? {
      assert NotesSoFar(x, c);
      if x.reader.Notifying? && !x.reader.turn.Between? {
        assert NotesSoFar(x, x.reader.turn.c);
      }
    }
  }

  lemma StepKeepsSession(s: State, st: Step)
    requires Enabled(s, st) && Inv(s)
    ensures SessionInv(Changed(s, st, Before(s, st)))
  {
    hide NotesSoFar, TableInv, KeysInv, Held;
    var x := Before(s, st);
    var x' := Changed(s, st, x);
    if st.Discard? {
      assert KillInv(s, st.t);
    }
    forall c
      ensures NotesSoFar(x', c)
    {
      NotesStep(s, st, x, c);
    }
  }

  /** The table and the session the step is about. */
  lemma StepKeepsOwnEntry(s: State, st: Step, sid: Sid, x: Session)
    requires Enabled(s, st) && KeysInv(s)
    requires sid == Subject(s, st) && x == Before(s, st)
    requires !st.Spawn? ==> TableInv(s.table, sid, x) && (x.alive <==> x.reader.Reading?)
    ensures TableInv(NewTable(s, st, x), sid, Changed(s, st, x))
  {
    hide Sent, NewKills;
  }

  /** The table and any other session. */
  lemma StepKeepsOtherEntry(s: State, st: Step, sid: Sid)
    requires Enabled(s, st)
    requires sid in s.sessions && sid != Subject(s, st) && TableInv(s.table, sid, s.sessions[sid])
    ensures TableInv(NewTable(s, st, Before(s, st)), sid, s.sessions[sid])
  {
    hide Sent, NewKills, Changed;
    var x, y := Before(s, st), s.sessions[sid];
    if (st.Add? || st.Withdraw?) && Listed(s.table, sid, y.key) {
      AddAndRemoveSpareOthers(s.table, x.key, st.sid, Held(s, x.key), y.key, sid);
    }
  }

  lemma StepKeepsKeys(s: State, st: Step)
    requires Enabled(s, st) && KeysInv(s)
    ensures KeysInv(Apply(s, st))
  {
    hide Sent, NewKills, Held;
  }

  lemma StepKeepsKill(s: State, st: Step, t: Thread)
    requires Enabled(s, st) && Inv(s)
    requires t in Apply(s, st).kills
    ensures KillInv(Apply(s, st), t)
  {
    hide Sent, Held, NotesSoFar, TableInv, KeysInv, NewTable;
    if t in s.kills {
      assert KillInv(s, t);
    }
    assert !st.Spawn? ==> SessionInv(Before(s, st));
  }

  /** Every step keeps the invariant. */
  lemma {:induction false} StepKeepsInv(s: State, st: Step)
    requires Enabled(s, st) && Inv(s)
    ensures Inv(Apply(s, st))
  {
    var t := Apply(s, st);
    StepKeepsSession(s, st);
    StepKeepsKeys(s, st);
    forall sid | sid in t.sessions
      ensures TableInv(t.table, sid, t.sessions[sid])
    {
      if sid == Subject(s, st) {
        StepKeepsOwnEntry(s, st, sid, Before(s, st));
      } else {
        StepKeepsOtherEntry(s, st, sid);
      }
    }
    forall th | th in t.kills
      ensures KillInv(t, th)
    {
      StepKeepsKill(s, st, th);
    }
    hide Changed, NewTable, NewKills, TableInv, KillInv, KeysInv, NotesSoFar;
  }

  lemma {:induction false} RunKeepsInv(s: State, run: seq<Step>)
    requires Allowed(s, run) && Inv(s)
    ensures Inv(Exec(s, run))
    decreases |run|
  {
    hide Inv, Apply;
    if run != [] {
      StepKeepsInv(s, run[0]);
      RunKeepsInv(Apply(s, run[0]), run[1..]);
    }
  }

  lemma ReachableInv(run: seq<Step>)
    requires Allowed(Init(), run)
    ensures Inv(Exec(Init(), run))
  {
    RunKeepsInv(Init(), run);
  }

  // ----- The table is stable, and no live session is lost -----

  predicate Alive(s: State, sid: Sid) {
    sid in s.sessions && s.sessions[sid].alive
  }

  /** Sessions do not vanish, keep their keys, and do not come back to life. */
  lemma StepIsMonotone(s: State, st: Step, sid: Sid)
    requires Enabled(s, st) && sid in s.sessions
    ensures sid in Apply(s, st).sessions
    ensures Apply(s, st).sessions[sid].key == s.sessions[sid].key
    ensures Alive(Apply(s, st), sid) ==> Alive(s, sid)
  {
    hide NewTable, NewKills, Sent, Held;
  }

  /** No step takes the key of a live session away from it: neither an offer nor the end of an older session. */
  lemma StepKeepsHolder(s: State, st: Step, key: Key)
    requires Enabled(s, st) && Inv(s) && Held(s, key)
    ensures var t := Apply(s, st); Listed(t.table, s.table[key], key)
  {
    hide NewKills, Sent, Changed, NotesSoFar, TableInv;
    assert SessionInv(s.sessions[s.table[key]]);
  }

  lemma {:induction false} DeadStaysDead(s: State, run: seq<Step>, sid: Sid)
    requires Allowed(s, run) && sid in s.sessions && !Alive(s, sid)
    ensures sid in Exec(s, run).sessions && !Alive(Exec(s, run), sid)
    decreases |run|
  {
    hide Apply, Alive;
    if run != [] {
      StepIsMonotone(s, run[0], sid);
      DeadStaysDead(Apply(s, run[0]), run[1..], sid);
    }
  }

  /** Once a key maps to a live session it maps to that session for as long as the session lives. */
  lemma {:induction false} HolderKeepsItsKey(s: State, run: seq<Step>, key: Key)
    requires Allowed(s, run) && Inv(s) && Held(s, key)
    ensures var t, sid := Exec(s, run), s.table[key];
            Alive(t, sid) ==> Listed(t.table, sid, key)
    decreases |run|
  {
    hide Apply, Inv;
    if run != [] {
      var sid := s.table[key];
      var s' := Apply(s, run[0]);
      StepKeepsInv(s, run[0]);
      StepIsMonotone(s, run[0], sid);
      StepKeepsHolder(s, run[0], key);
      if Alive(s', sid) {
        HolderKeepsItsKey(s', run[1..], key);
      } else {
        DeadStaysDead(s', run[1..], sid);
      }
    }
  }

  /** Both were accepted into the table, under one key. */
  predicate Rivals(x: Session, y: Session) {
    x.key == y.key && x.creator.Won? && y.creator.Won?
  }

  /**
   In every reachable state a live session is in the table under its key, or its creator has yet to offer it, or its
   creator lost the race and is about to kill it. At most one session per key is live and past its creator.
   */
  lemma NoOrphan(run: seq<Step>, sid: Sid)
    requires Allowed(Init(), run) && Alive(Exec(Init(), run), sid)
    ensures var t := Exec(Init(), run);
            var x := t.sessions[sid];
            || (x.creator.Won? && Listed(t.table, sid, x.key))
            || x.creator.Spawned?
            || x.creator.Lost?
    ensures var t := Exec(Init(), run);
            forall other :: Alive(t, other) && Rivals(t.sessions[other], t.sessions[sid]) ==> other == sid
  {
    ReachableInv(run);
    var t := Exec(Init(), run);
    assert SessionInv(t.sessions[sid]) && TableInv(t.table, sid, t.sessions[sid]);
    forall other | Alive(t, other)
      ensures TableInv(t.table, other, t.sessions[other])
    {
    }
    hide Exec, Allowed, NotesSoFar;
  }

  // ----- What Kill and onExit promise -----

  function Count(ns: seq<Note>, n: Note): nat {
    multiset(ns)[n]
  }

  /**
   A Kill that reached its wait returns only after onExit is over: it ran exactly once, every connection attached when it
   began has been sent its notes, and the session is out of the table unless its own creator offered it afterwards.
   */
  lemma KillReturnsAfterExit(run: seq<Step>, th: Thread)
    requires Allowed(Init(), run)
    requires th in Exec(Init(), run).kills && Exec(Init(), run).kills[th].Waited?
    ensures var t := Exec(Init(), run);
            var sid := t.kills[th].sid;
            && sid in t.sessions
            && var x := t.sessions[sid];
            && x.killed && !x.alive && x.exits == 1
            && (forall c :: c in x.told ==> Count(Sent(x, c), ClosedNote) == 1)
            && (Listed(t.table, sid, x.key) ==> x.late)
  {
    ReachableInv(run);
    var t := Exec(Init(), run);
    var sid := t.kills[th].sid;
    assert KillInv(t, th);
    var x := t.sessions[sid];
    assert SessionInv(x) && TableInv(t.table, sid, x);
    hide Exec, Allowed, SessionInv, TableInv, Count;
    forall c | c in x.told
      ensures Count(Sent(x, c), ClosedNote) == 1
    {
      NotesAreExact(run, sid, c);
    }
  }

  /**
   At every moment a connection has been sent at most one session_closed, and before it at most one exit code; none at
   all if the kill came before the end. When onExit is over, those it found attached have had their session_closed, and
   the others - a connection that attached later among them - have had nothing.
   */
  lemma NotesAreExact(run: seq<Step>, sid: Sid, c: Client)
    requires Allowed(Init(), run) && sid in Exec(Init(), run).sessions
    ensures var x := Exec(Init(), run).sessions[sid];
            x.exits <= 1 && (Sent(x, c) <= [ExitNote, ClosedNote] || Sent(x, c) == [ClosedNote])
    ensures var x := Exec(Init(), run).sessions[sid];
            && (x.killedFirst ==> Count(Sent(x, c), ExitNote) == 0)
            && (Gone(x.reader) ==> Count(Sent(x, c), ClosedNote) == if c in x.told then 1 else 0)
            && (c !in x.told ==> Sent(x, c) == [])
  {
    ReachableInv(run);
    var x := Exec(Init(), run).sessions[sid];
    assert SessionInv(x);
    assert NotesSoFar(x, c);
    hide Exec, Allowed;
    assert [ExitNote] <= [ExitNote, ClosedNote];
  }

  /** onExit deals with those attached at the moment it clears the set. */
  lemma ClearTakesTheAttached(s: State, sid: Sid)
    requires Enabled(s, Clear(sid)) && Inv(s)
    ensures var x, x' := s.sessions[sid], Apply(s, Clear(sid)).sessions[sid];
            x'.told == x.attached && x'.attached == {} && x.exits == 0 && x'.exits == 1
            && forall c :: Sent(x', c) == []
  {
    var x, x' := s.sessions[sid], Apply(s, Clear(sid)).sessions[sid];
    assert SessionInv(x);
    forall c
      ensures Sent(x', c) == []
    {
      assert NotesSoFar(x, c);
    }
  }

  /** How many steps the read loop still has to take. */
  function Left(r: Reader): nat {
    match r
    case Reading => 0
    case Reaped => 0
    case Notifying(todo, turn) =>
      3 * |todo| + 2 - (if turn.Between? then 0 else if turn.ToExit? then 1 else 2)
    case Withdrawn => 1
    case Finished => 0
  }

  /** A step that the read loop takes in onExit. */
  predicate InOnExit(st: Step, sid: Sid) {
    (st.Check? || st.SendExit? || st.SendClosed? || st.Withdraw? || st.Finish?) && st.sid == sid
  }

  predicate ExitHasBegun(s: State, sid: Sid) {
    sid in s.sessions && (s.sessions[sid].reader.Notifying? || Gone(s.sessions[sid].reader))
  }

  /** The next step of onExit can be taken, and brings it nearer to its end. */
  lemma NextInExit(s: State, sid: Sid) returns (st: Step)
    requires Inv(s) && ExitHasBegun(s, sid) && !s.sessions[sid].reader.Finished?
    ensures Enabled(s, st) && InOnExit(st, sid)
    ensures var t := Apply(s, st);
            ExitHasBegun(t, sid) && Left(t.sessions[sid].reader) < Left(s.sessions[sid].reader)
  {
    hide NotesSoFar, TableInv, KeysInv, NewTable, NewKills, Sent, Held;
    var x := s.sessions[sid];
    assert SessionInv(x);
    if x.reader.Withdrawn? {
      st := Finish(sid);
    } else if x.reader.turn.ToExit? {
      st := SendExit(sid);
    } else if x.reader.turn.ToClose? {
      st := SendClosed(sid);
    } else if x.reader.todo == {} {
      st := Withdraw(sid);
    } else {
      var c :| c in x.reader.todo;
      st := Check(sid, c);
    }
  }

  /** onExit never waits for anybody: once begun, its own steps alone take the read loop to its end. */
  lemma {:induction false} ExitRunsToItsEnd(s: State, sid: Sid) returns (run: seq<Step>)
    requires Inv(s) && ExitHasBegun(s, sid)
    ensures Allowed(s, run) && sid in Exec(s, run).sessions && Exec(s, run).sessions[sid].reader.Finished?
    ensures forall i :: 0 <= i < |run| ==> InOnExit(run[i], sid)
    decreases Left(s.sessions[sid].reader)
  {
    hide Inv, Apply, Enabled, InOnExit;
    if s.sessions[sid].reader.Finished? {
      return [];
    }
    var st := NextInExit(s, sid);
    StepKeepsInv(s, st);
    var rest := ExitRunsToItsEnd(Apply(s, st), sid);
    Chain(s, st, rest);
    run := [st] + rest;
  }

  // ----- What the run says of a session -----

  lemma {:induction false} LastStep(s: State, run: seq<Step>)
    requires Allowed(s, run) && run != []
    ensures Allowed(s, run[..|run| - 1])
    ensures var t := Exec(s, run[..|run| - 1]);
            Enabled(t, run[|run| - 1]) && Exec(s, run) == Apply(t, run[|run| - 1])
    decreases |run|
  {
    hide Apply, Enabled;
    if |run| == 1 {
      assert run[1..] == [] && run[..0] == [];
    } else {
      var rest := run[1..];
      LastStep(Apply(s, run[0]), rest);
      var front := run[..|run| - 1];
      assert front[0] == run[0] && front[1..] == rest[..|rest| - 1];
    }
  }

  predicate Attached(s: State, sid: Sid, c: Client) {
    sid in s.sessions && c in s.sessions[sid].attached
  }

  /** Step `i` attaches the client, and neither its detach nor onExit has come since. */
  ghost predicate AttachedAt(run: seq<Step>, sid: Sid, c: Client, i: int) {
    && 0 <= i < |run| && run[i] == Attach(sid, c)
    && forall k :: i < k < |run| ==> run[k] != Detach(sid, c) && run[k] != Clear(sid)
  }

  ghost predicate AttachedBy(run: seq<Step>, sid: Sid, c: Client) {
    exists i :: AttachedAt(run, sid, c, i)
  }

  lemma StepAttaches(s: State, st: Step, sid: Sid, c: Client)
    requires Enabled(s, st)
    ensures Attached(Apply(s, st), sid, c) <==>
            st == Attach(sid, c) || (Attached(s, sid, c) && st != Detach(sid, c) && st != Clear(sid))
  {
    hide NewTable, NewKills, Sent, Held;
  }

  lemma AttachedBySnoc(run: seq<Step>, st: Step, sid: Sid, c: Client)
    ensures AttachedBy(run + [st], sid, c) <==>
            st == Attach(sid, c) || (AttachedBy(run, sid, c) && st != Detach(sid, c) && st != Clear(sid))
  {
    var all := run + [st];
    if i :| AttachedAt(all, sid, c, i) {
      if i < |run| {
        assert all[|run|] == st;
        assert forall k :: 0 <= k < |run| ==> all[k] == run[k];
        assert AttachedAt(run, sid, c, i);
      }
    }
    if i :| AttachedAt(run, sid, c, i) {
      if st != Detach(sid, c) && st != Clear(sid) {
        assert AttachedAt(all, sid, c, i);
      }
    }
    if st == Attach(sid, c) {
      assert AttachedAt(all, sid, c, |run|);
    }
  }

  /** In every run a client is attached from its attach until its detach or onExit, and at no other time. */
  lemma {:induction false} AttachedIff(run: seq<Step>, sid: Sid, c: Client)
    requires Allowed(Init(), run)
    ensures Attached(Exec(Init(), run), sid, c) <==> AttachedBy(run, sid, c)
    decreases |run|
  {
    hide Apply, Enabled, Attached, AttachedBy;
    if run == [] {
      NobodyAtFirst(sid, c);
    } else {
      var front, st := run[..|run| - 1], run[|run| - 1];
      LastStep(Init(), run);
      AttachedIff(front, sid, c);
      StepAttaches(Exec(Init(), front), st, sid, c);
      AttachedBySnoc(front, st, sid, c);
      assert run == front + [st];
    }
  }

  lemma NobodyAtFirst(sid: Sid, c: Client)
    ensures !Attached(Init(), sid, c) && !AttachedBy([], sid, c)
  {
  }

  /** The state after the first `n` steps of a run. */
  ghost function After(run: seq<Step>, n: nat): State {
    if n <= |run| && Allowed(Init(), run[..n]) then Exec(Init(), run[..n]) else Init()
  }

  /** A kill had set its flag when step `n` reaped the child. */
  ghost predicate KilledByThen(run: seq<Step>, sid: Sid, n: nat) {
    && n < |run| && run[n] == Reap(sid)
    && var s := After(run, n);
       sid in s.sessions && s.sessions[sid].killed
  }

  /** onExit had withdrawn the session when step `n` offered it. */
  ghost predicate GoneByThen(run: seq<Step>, sid: Sid, n: nat) {
    && n < |run| && run[n] == Add(sid)
    && var s := After(run, n);
       sid in s.sessions && Gone(s.sessions[sid].reader)
  }

  /** What a session remembers, step by step. */
  lemma StepRemembers(s: State, st: Step, sid: Sid)
    requires Enabled(s, st) && Inv(s) && sid in Apply(s, st).sessions
    ensures var y := Apply(s, st).sessions[sid];
            if sid in s.sessions then
              var x := s.sessions[sid];
              && (y.killedFirst <==> x.killedFirst || (st == Reap(sid) && x.killed))
              && (y.late <==> y.creator.Won? && (x.late || (st == Add(sid) && Gone(x.reader))))
              && (y.creator.Won? ==> x.creator.Won? || st == Add(sid))
              && (st == Add(sid) ==> x.creator.Spawned?)
              && y.exits == x.exits + if st == Clear(sid) then 1 else 0
            else
              !y.killedFirst && !y.late && y.exits == 0 && st == Spawn(sid, y.key)
  {
    hide NewTable, NewKills, Sent, NotesSoFar, KillInv, TableInv, KeysInv;
    if sid in s.sessions {
      assert SessionInv(s.sessions[sid]);
    }
  }

  /** Of a session that there is not nothing has happened. */
  lemma {:induction false} NothingBefore(run: seq<Step>, sid: Sid)
    requires Allowed(Init(), run) && sid !in Exec(Init(), run).sessions
    ensures Clear(sid) !in run && Reap(sid) !in run && Add(sid) !in run
    decreases |run|
  {
    if run != [] {
      var front, st := run[..|run| - 1], run[|run| - 1];
      LastStep(Init(), run);
      hide Exec, Allowed, NewTable, NewKills, Sent, Changed;
      NothingBefore(front, sid);
      assert run == front + [st];
    }
  }

  /** Nor has a session been offered whose creator is before that. */
  lemma {:induction false} NotOfferedBefore(run: seq<Step>, sid: Sid)
    requires Allowed(Init(), run)
    requires var s := Exec(Init(), run); sid in s.sessions ==> s.sessions[sid].creator.Spawned?
    ensures Add(sid) !in run
    decreases |run|
  {
    if run != [] {
      var front, st := run[..|run| - 1], run[|run| - 1];
      LastStep(Init(), run);
      hide Exec, Allowed, NewTable, NewKills, Sent, Held;
      NotOfferedBefore(front, sid);
      assert run == front + [st];
    }
  }

  lemma AfterFront(run: seq<Step>, front: seq<Step>, st: Step, n: nat)
    requires run == front + [st] && n <= |front|
    ensures After(run, n) == After(front, n)
  {
    assert run[..n] == front[..n];
  }

  /** The three marks on a session say what they are named for: they can be read off the run. */
  lemma {:induction false} MarksAreRight(run: seq<Step>, sid: Sid)
    requires Allowed(Init(), run) && sid in Exec(Init(), run).sessions
    ensures var x := Exec(Init(), run).sessions[sid];
            && (x.killedFirst <==> exists n: nat :: KilledByThen(run, sid, n))
            && (x.late <==> x.creator.Won? && exists n: nat :: GoneByThen(run, sid, n))
            && x.exits == multiset(run)[Clear(sid)]
    decreases |run|
  {
    hide Apply, Enabled, Inv, After;
    if run != [] {
      var front, st := run[..|run| - 1], run[|run| - 1];
      assert run == front + [st];
      LastStep(Init(), run);
      ReachableInv(front);
      var s := Exec(Init(), front);
      StepRemembers(s, st, sid);
      KilledSnoc(run, front, st, sid);
      GoneSnoc(run, front, st, sid);
      if sid in s.sessions {
        MarksAreRight(front, sid);
        if st == Add(sid) {
          NotOfferedBefore(front, sid);
        }
      } else {
        NothingBefore(front, sid);
      }
    }
  }

  /** A call of Kill on the session that has set the flag. */
  predicate HasMarked(s: State, th: Thread, sid: Sid) {
    th in s.kills && s.kills[th].sid == sid && (s.kills[th].Marked? || s.kills[th].Waited?)
  }

  lemma StepMarks(s: State, st: Step, sid: Sid, th: Thread)
    requires Enabled(s, st)
    ensures HasMarked(s, th, sid) ==> HasMarked(Apply(s, st), th, sid)
    ensures sid in Apply(s, st).sessions && Apply(s, st).sessions[sid].killed ==>
              || (sid in s.sessions && s.sessions[sid].killed)
              || (st.MarkKilled? && HasMarked(Apply(s, st), st.t, sid))
  {
    hide NewTable, Sent, Held;
  }

  /** A session is killed if and only if some call of Kill has set its flag. */
  lemma {:induction false} KilledIff(run: seq<Step>, sid: Sid)
    requires Allowed(Init(), run) && sid in Exec(Init(), run).sessions
    ensures var s := Exec(Init(), run);
            s.sessions[sid].killed <==> exists th :: HasMarked(s, th, sid)
    decreases |run|
  {
    ReachableInv(run);
    var t := Exec(Init(), run);
    forall th | HasMarked(t, th, sid)
      ensures t.sessions[sid].killed
    {
      assert KillInv(t, th);
    }
    hide Inv, Apply, Enabled, HasMarked;
    if run != [] && t.sessions[sid].killed {
      var front, st := run[..|run| - 1], run[|run| - 1];
      LastStep(Init(), run);
      var s := Exec(Init(), front);
      StepMarks(s, st, sid, 0);
      if sid in s.sessions && s.sessions[sid].killed {
        KilledIff(front, sid);
        var th :| HasMarked(s, th, sid);
        StepMarks(s, st, sid, th);
      }
    }
  }

  lemma KilledSnoc(run: seq<Step>, front: seq<Step>, st: Step, sid: Sid)
    requires run == front + [st] && Allowed(Init(), front)
    ensures (exists n: nat :: KilledByThen(run, sid, n)) <==>
            || (exists n: nat :: KilledByThen(front, sid, n))
            || (st == Reap(sid) && var s := Exec(Init(), front); sid in s.sessions && s.sessions[sid].killed)
  {
    assert front[..|front|] == front && After(front, |front|) == Exec(Init(), front);
    hide After, Exec, Allowed;
    AfterFront(run, front, st, |front|);
    if n: nat :| KilledByThen(run, sid, n) {
      AfterFront(run, front, st, n);
      assert n < |front| ==> KilledByThen(front, sid, n);
    }
    if n: nat :| KilledByThen(front, sid, n) {
      AfterFront(run, front, st, n);
      assert KilledByThen(run, sid, n);
    }
    if st == Reap(sid) && sid in After(front, |front|).sessions && After(front, |front|).sessions[sid].killed {
      assert KilledByThen(run, sid, |front|);
    }
  }

  lemma GoneSnoc(run: seq<Step>, front: seq<Step>, st: Step, sid: Sid)
    requires run == front + [st] && Allowed(Init(), front)
    ensures (exists n: nat :: GoneByThen(run, sid, n)) <==>
            || (exists n: nat :: GoneByThen(front, sid, n))
            || (st == Add(sid) && var s := Exec(Init(), front); sid in s.sessions && Gone(s.sessions[sid].reader))
  {
    assert front[..|front|] == front && After(front, |front|) == Exec(Init(), front);
    hide After, Exec, Allowed;
    AfterFront(run, front, st, |front|);
    if n: nat :| GoneByThen(run, sid, n) {
      AfterFront(run, front, st, n);
      assert n < |front| ==> GoneByThen(front, sid, n);
    }
    if n: nat :| GoneByThen(front, sid, n) {
      AfterFront(run, front, st, n);
      assert GoneByThen(run, sid, n);
    }
    if st == Add(sid) && sid in After(front, |front|).sessions && Gone(After(front, |front|).sessions[sid].reader) {
      assert GoneByThen(run, sid, |front|);
    }
  }

  // ----- When a session is out of the table for good -----

  /** No continuation puts the session into the table again. */
  ghost predicate OutForGood(s: State, sid: Sid) {
    forall rest :: Allowed(s, rest) ==> !HasEntry(Exec(s, rest), sid)
  }

  predicate HasEntry(s: State, sid: Sid) {
    sid in s.sessions && Listed(s.table, sid, s.sessions[sid].key)
  }

  /** A session that has been offered and is not in the table does not get there. */
  lemma StepKeepsOut(s: State, st: Step, sid: Sid)
    requires Enabled(s, st) && sid in s.sessions
    requires !s.sessions[sid].creator.Spawned? && !HasEntry(s, sid)
    ensures var t := Apply(s, st);
            sid in t.sessions && !t.sessions[sid].creator.Spawned? && !HasEntry(t, sid)
  {
    hide NewKills, Sent, Held;
  }

  lemma {:induction false} StaysOut(s: State, run: seq<Step>, sid: Sid)
    requires Allowed(s, run) && sid in s.sessions
    requires !s.sessions[sid].creator.Spawned? && !HasEntry(s, sid)
    ensures !HasEntry(Exec(s, run), sid)
    decreases |run|
  {
    hide Apply, Enabled, HasEntry;
    if run != [] {
      StepKeepsOut(s, run[0], sid);
      StaysOut(Apply(s, run[0]), run[1..], sid);
    }
  }

  /** Offering lists the session unless a live one holds its key: a dead one that is offered is listed all the same. */
  lemma AddListsUnlessHeld(s: State, sid: Sid)
    requires Inv(s) && Enabled(s, Add(sid))
    ensures var x, t := s.sessions[sid], Apply(s, Add(sid));
            t.sessions[sid].reader == x.reader && (HasEntry(t, sid) <==> !Held(s, x.key))
  {
    hide SessionInv, KillInv;
    assert TableInv(s.table, sid, s.sessions[sid]);
  }

  /** So `addSession` lists a session whose onExit has already withdrawn it if and only if no live one holds the key. */
  lemma AddListsTheDeadIff(run: seq<Step>, sid: Sid)
    requires Allowed(Init(), run) && Enabled(Exec(Init(), run), Add(sid))
    ensures var s := Exec(Init(), run);
            var t := Apply(s, Add(sid));
            && sid in t.sessions
            && (Gone(t.sessions[sid].reader) && HasEntry(t, sid)
                <==> Gone(s.sessions[sid].reader) && !Held(s, s.sessions[sid].key))
  {
    ReachableInv(run);
    AddListsUnlessHeld(Exec(Init(), run), sid);
    hide Inv, Exec, Allowed, HasEntry, Held;
  }

  /** Whoever holds the key gives way to the next session offered: at once when dead, else when its child has ended. */
  lemma OfferedInTheEnd(s: State, sid: Sid) returns (rest: seq<Step>)
    requires Inv(s) && sid in s.sessions && s.sessions[sid].creator.Spawned?
    ensures Allowed(s, rest) && HasEntry(Exec(s, rest), sid)
  {
    var key := s.sessions[sid].key;
    rest := [Add(sid)] + [];
    if Held(s, key) {
      var holder := s.table[key];
      assert TableInv(s.table, holder, s.sessions[holder]) && SessionInv(s.sessions[holder]);
      var t := Apply(s, Reap(holder));
      StepKeepsInv(s, Reap(holder));
      AddListsUnlessHeld(t, sid);
      Chain(t, Add(sid), []);
      Chain(s, Reap(holder), rest);
      rest := [Reap(holder)] + rest;
    } else {
      AddListsUnlessHeld(s, sid);
      Chain(s, Add(sid), []);
    }
  }

  /** onExit takes the session out of the table for good if and only if its creator has offered it by then. */
  lemma OutForGoodIff(run: seq<Step>, sid: Sid)
    requires Allowed(Init(), run) && Enabled(Exec(Init(), run), Withdraw(sid))
    ensures var s := Exec(Init(), run);
            OutForGood(Apply(s, Withdraw(sid)), sid) <==> !s.sessions[sid].creator.Spawned?
  {
    ReachableInv(run);
    var s := Exec(Init(), run);
    var t := Apply(s, Withdraw(sid));
    StepKeepsInv(s, Withdraw(sid));
    assert !HasEntry(t, sid);
    if s.sessions[sid].creator.Spawned? {
      var rest := OfferedInTheEnd(t, sid);
    } else {
      forall rest | Allowed(t, rest)
        ensures !HasEntry(Exec(t, rest), sid)
      {
        StaysOut(t, rest, sid);
      }
    }
  }

  /** Some step of the run offers a session under the key. */
  predicate Offers(s: State, run: seq<Step>, key: Key)
    requires Allowed(s, run)
    decreases |run|
  {
    && run != []
    && ((run[0].Add? && s.sessions[run[0].sid].key == key) || Offers(Apply(s, run[0]), run[1..], key))
  }

  /** Steps that leave a listed dead session where it is, and the one that does not. */
  lemma StepKeepsDeadEntry(s: State, st: Step, sid: Sid)
    requires Inv(s) && Enabled(s, st) && HasEntry(s, sid) && Gone(s.sessions[sid].reader)
    ensures var t := Apply(s, st);
            && sid in t.sessions && t.sessions[sid].key == s.sessions[sid].key && Gone(t.sessions[sid].reader)
            && !t.sessions[sid].creator.Spawned?
            && (HasEntry(t, sid) <==> !(st.Add? && s.sessions[st.sid].key == s.sessions[sid].key))
  {
    hide NewKills, Sent, NotesSoFar, KillInv;
    assert SessionInv(s.sessions[sid]) && TableInv(s.table, sid, s.sessions[sid]);
  }

  /** A dead session in the table stays there exactly until another is offered under its key. */
  lemma {:induction false} DeadEntryStaysIff(s: State, run: seq<Step>, sid: Sid)
    requires Inv(s) && Allowed(s, run) && HasEntry(s, sid) && Gone(s.sessions[sid].reader)
    ensures HasEntry(Exec(s, run), sid) <==> !Offers(s, run, s.sessions[sid].key)
    decreases |run|
  {
    hide Inv, Apply, Enabled, HasEntry;
    if run != [] {
      var t := Apply(s, run[0]);
      StepKeepsInv(s, run[0]);
      StepKeepsDeadEntry(s, run[0], sid);
      if HasEntry(t, sid) {
        DeadEntryStaysIff(t, run[1..], sid);
      } else {
        StaysOut(t, run[1..], sid);
      }
    }
  }

  // ----- When a Kill waits for onExit -----

  predicate Returned(s: State, th: Thread) {
    th in s.kills && (s.kills[th].Waited? || s.kills[th].Skipped?)
  }

  predicate ExitIsOver(s: State, sid: Sid) {
    sid in s.sessions && s.sessions[sid].reader.Finished?
  }

  /** However things go on, when the call returns onExit is over. */
  ghost predicate WaitsForExit(s: State, th: Thread, sid: Sid) {
    forall rest :: Allowed(s, rest) && Returned(Exec(s, rest), th) ==> ExitIsOver(Exec(s, rest), sid)
  }

  /** A call of Kill stays with its session, and once past its first test it does not skip the wait. */
  predicate OnItsWay(s: State, th: Thread, sid: Sid) {
    th in s.kills && s.kills[th].sid == sid && !s.kills[th].Skipped?
  }

  lemma StepKeepsKillGoing(s: State, st: Step, th: Thread, sid: Sid)
    requires Enabled(s, st)
    ensures OnItsWay(s, th, sid) ==> OnItsWay(Apply(s, st), th, sid)
    ensures ExitIsOver(s, sid) ==> ExitIsOver(Apply(s, st), sid)
  {
    hide NewTable, Sent, Held;
  }

  lemma {:induction false} RunKeepsKillGoing(s: State, run: seq<Step>, th: Thread, sid: Sid)
    requires Allowed(s, run)
    ensures OnItsWay(s, th, sid) ==> OnItsWay(Exec(s, run), th, sid)
    ensures ExitIsOver(s, sid) ==> ExitIsOver(Exec(s, run), sid)
    decreases |run|
  {
    hide Apply, Enabled, OnItsWay, ExitIsOver;
    if run != [] {
      StepKeepsKillGoing(s, run[0], th, sid);
      RunKeepsKillGoing(Apply(s, run[0]), run[1..], th, sid);
    }
  }

  /** A call of Kill returns only after onExit if and only if it finds the session alive, or not killed, or over. */
  lemma KillWaitsIff(run: seq<Step>, th: Thread, sid: Sid)
    requires Allowed(Init(), run) && Enabled(Exec(Init(), run), EnterKill(th, sid))
    ensures var s := Exec(Init(), run);
            var x := s.sessions[sid];
            WaitsForExit(Apply(s, EnterKill(th, sid)), th, sid) <==> x.alive || !x.killed || x.reader.Finished?
  {
    ReachableInv(run);
    var s := Exec(Init(), run);
    var t := Apply(s, EnterKill(th, sid));
    var x := s.sessions[sid];
    StepKeepsInv(s, EnterKill(th, sid));
    if x.alive || !x.killed || x.reader.Finished? {
      forall rest | Allowed(t, rest) && Returned(Exec(t, rest), th)
        ensures ExitIsOver(Exec(t, rest), sid)
      {
        RunKeepsKillGoing(t, rest, th, sid);
        RunKeepsInv(t, rest);
        assert KillInv(Exec(t, rest), th);
      }
    } else {
      assert Allowed(t, []) && Exec(t, []) == t;
    }
  }

  // ----- What is not promised -----

  lemma Chain(s: State, st: Step, rest: seq<Step>)
    requires Enabled(s, st) && Allowed(Apply(s, st), rest)
    ensures Allowed(s, [st] + rest) && Exec(s, [st] + rest) == Exec(Apply(s, st), rest)
  {
    hide Enabled, Apply;
    assert ([st] + rest)[1..] == rest;
  }

  /** The child ends, and onExit with it, before the creator offers the session. */
  function EndBeforeAdd(key: Key): seq<Step> {
    [Spawn(0, key)] + ([Reap(0)] + ([Clear(0)] + ([Withdraw(0)] + ([Finish(0)] + ([Add(0)] + [])))))
  }

  /** A child that is gone before its creator offers the session leaves a dead session in the table. */
  lemma DeadButListed(key: Key)
    ensures Allowed(Init(), EndBeforeAdd(key))
    ensures var t := Exec(Init(), EndBeforeAdd(key));
            0 in t.sessions && !t.sessions[0].alive && t.sessions[0].reader.Finished? && Listed(t.table, 0, key)
  {
    var s1 := Apply(Init(), Spawn(0, key));
    var s2 := Apply(s1, Reap(0));
    var s3 := Apply(s2, Clear(0));
    var s4 := Apply(s3, Withdraw(0));
    var s5 := Apply(s4, Finish(0));
    Chain(s5, Add(0), []);
    Chain(s4, Finish(0), [Add(0)] + []);
    Chain(s3, Withdraw(0), [Finish(0)] + ([Add(0)] + []));
    Chain(s2, Clear(0), [Withdraw(0)] + ([Finish(0)] + ([Add(0)] + [])));
    Chain(s1, Reap(0), [Clear(0)] + ([Withdraw(0)] + ([Finish(0)] + ([Add(0)] + []))));
    Chain(Init(), Spawn(0, key), [Reap(0)] + ([Clear(0)] + ([Withdraw(0)] + ([Finish(0)] + ([Add(0)] + [])))));
    hide Exec, Allowed;
  }

  /** A second Kill begins when the first has closed the PTY and the child has just been reaped. */
  function KillDuringExit(key: Key): seq<Step> {
    [Spawn(0, key)] + ([Add(0)] + ([EnterKill(1, 0)] + ([MarkKilled(1)] + ([Reap(0)] + ([EnterKill(2, 0)] + [])))))
  }

  /** A Kill that finds the session dead and killed returns at once, even before the session has left the table. */
  lemma SecondKillReturnsEarly(key: Key)
    ensures Allowed(Init(), KillDuringExit(key))
    ensures var t := Exec(Init(), KillDuringExit(key));
            0 in t.sessions && 2 in t.kills && t.kills[2] == Skipped(0)
            && t.sessions[0].exits == 0 && Listed(t.table, 0, key)
  {
    var s1 := Apply(Init(), Spawn(0, key));
    var s2 := Apply(s1, Add(0));
    var s3 := Apply(s2, EnterKill(1, 0));
    var s4 := Apply(s3, MarkKilled(1));
    var s5 := Apply(s4, Reap(0));
    Chain(s5, EnterKill(2, 0), []);
    Chain(s4, Reap(0), [EnterKill(2, 0)] + []);
    Chain(s3, MarkKilled(1), [Reap(0)] + ([EnterKill(2, 0)] + []));
    Chain(s2, EnterKill(1, 0), [MarkKilled(1)] + ([Reap(0)] + ([EnterKill(2, 0)] + [])));
    Chain(s1, Add(0), [EnterKill(1, 0)] + ([MarkKilled(1)] + ([Reap(0)] + ([EnterKill(2, 0)] + []))));
    Chain(Init(), Spawn(0, key),
          [Add(0)] + ([EnterKill(1, 0)] + ([MarkKilled(1)] + ([Reap(0)] + ([EnterKill(2, 0)] + [])))));
    hide Exec, Allowed;
  }
}
