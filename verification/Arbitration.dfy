/** Which size the PTY gets when several clients are attached (internal/server/session.go, pkg/ptysession/session.go). */
module Arbitration {

  /** A client's wish; 0 or less in a dimension means that it has none there. */
  datatype Winsize = Winsize(cols: int, rows: int)

  /** The effective size, and the size last set on the PTY itself, whose fields have 16 bits. */
  datatype Screen = Screen(cols: int, rows: int, ptyCols: int, ptyRows: int)

  const WORD: int := 0x1_0000

  function OnPty(cols: int, rows: int): Screen {
    Screen(cols, rows, cols % WORD, rows % WORD)
  }

  /** The size a session starts with. */
  function Started(cols: int, rows: int): Screen {
    OnPty(if cols <= 0 then 80 else cols, if rows <= 0 then 24 else rows)
  }

  /** `m` is the least positive element of `vs`, or 0 when there is none. */
  ghost predicate Least(vs: set<int>, m: int) {
    || (m == 0 && forall v :: v in vs ==> v <= 0)
    || (m > 0 && m in vs && forall v :: v in vs && v > 0 ==> m <= v)
  }

  lemma LeastIsUnique(vs: set<int>, m: int, n: int)
    requires Least(vs, m) && Least(vs, n)
    ensures m == n
  {
    if n in vs {
      assert n > 0 ==> m <= n;
    }
  }

  /** One more wish, as the loop over the clients takes it in. */
  lemma LeastWith(vs: set<int>, m: int, v: int)
    requires Least(vs, m)
    ensures Least(vs + {v}, if v > 0 && (m == 0 || v < m) then v else m)
  {
  }

  function Cols<C(==)>(votes: map<C, Winsize>): set<int> {
    set c | c in votes :: votes[c].cols
  }

  function Rows<C(==)>(votes: map<C, Winsize>): set<int> {
    set c | c in votes :: votes[c].rows
  }

  /** The size that the votes call for: dimension by dimension the least wish, and no change unless both have one. */
  ghost predicate Called<C>(votes: map<C, Winsize>, before: Screen, after: Screen) {
    forall m, n :: Least(Cols(votes), m) && Least(Rows(votes), n) ==>
      after == if m == 0 || n == 0 || (m == before.cols && n == before.rows) then before else OnPty(m, n)
  }

  datatype State<C> = State(votes: map<C, Winsize>, screen: Screen)

  datatype Step<C> = Attach(c: C, size: Winsize) | Detach(c: C) | Resize(c: C, size: Winsize) | Clear

  /** The votes after a step. */
  function Revote<C(==)>(votes: map<C, Winsize>, st: Step<C>): map<C, Winsize> {
    match st
    case Attach(c, size) => votes[c := size]
    case Detach(c) => votes - {c}
    case Resize(c, size) => if c in votes then votes[c := size] else votes
    case Clear => map[]
  }

  /** Attach, detach and resize recompute the size; the end of the child does not. */
  ghost predicate Next<C>(s: State<C>, st: Step<C>, s': State<C>) {
    && s'.votes == Revote(s.votes, st)
    && if st.Clear? then s'.screen == s.screen else Called(s'.votes, s.screen, s'.screen)
  }

  ghost predicate Run<C>(states: seq<State<C>>, steps: seq<Step<C>>) {
    && |states| == |steps| + 1
    && states[0].votes == map[]
    && (exists cols, rows :: states[0].screen == Started(cols, rows))
    && forall i :: 0 <= i < |steps| ==> Next(states[i], steps[i], states[i + 1])
  }

  /** The effective size is the least wish in each dimension whenever both have one; the PTY has it in 16 bits. */
  ghost predicate Settled<C>(s: State<C>) {
    && s.screen.cols > 0 && s.screen.rows > 0
    && s.screen == OnPty(s.screen.cols, s.screen.rows)
    && forall m, n :: m > 0 && n > 0 && Least(Cols(s.votes), m) && Least(Rows(s.votes), n) ==>
         s.screen.cols == m && s.screen.rows == n
  }

  lemma LeastExists(vs: set<int>) returns (m: int)
    ensures Least(vs, m)
  {
    if v :| v in vs {
      var n := LeastExists(vs - {v});
      m := if v > 0 && (n == 0 || v < n) then v else n;
      assert forall u :: u in vs ==> u == v || u in vs - {v};
    } else {
      m := 0;
    }
  }

  lemma StepSettles<C>(s: State<C>, st: Step<C>, s': State<C>)
    requires Settled(s) && Next(s, st, s')
    ensures Settled(s')
  {
    if st.Clear? {
      assert Cols(s'.votes) == {};
    } else {
      var m := LeastExists(Cols(s'.votes));
      var n := LeastExists(Rows(s'.votes));
      forall m', n' | m' > 0 && n' > 0 && Least(Cols(s'.votes), m') && Least(Rows(s'.votes), n')
        ensures s'.screen.cols == m' && s'.screen.rows == n'
      {
        LeastIsUnique(Cols(s'.votes), m, m');
        LeastIsUnique(Rows(s'.votes), n, n');
      }
    }
  }

  /** In every run: after any attach, detach, resize or exit. */
  lemma {:induction false} RunSettles<C>(states: seq<State<C>>, steps: seq<Step<C>>)
    requires Run(states, steps)
    ensures Settled(states[|steps|])
    decreases |steps|
  {
    if steps == [] {
      assert Cols(states[0].votes) == {};
    } else {
      var n := |steps| - 1;
      RunSettles(states[..n + 1], steps[..n]);
      StepSettles(states[n], steps[n], states[n + 1]);
    }
  }

  /** The client is no longer heard. */
  predicate Leaves<C(==)>(st: Step<C>, c: C) {
    st.Clear? || (st.Detach? && st.c == c)
  }

  predicate Speaks<C(==)>(st: Step<C>, c: C) {
    (st.Attach? || st.Resize?) && st.c == c
  }

  /** Step `i` attaches the client, and it has not left since. */
  ghost predicate AttachedAt<C>(steps: seq<Step<C>>, c: C, i: int) {
    && 0 <= i < |steps| && steps[i].Attach? && steps[i].c == c
    && forall k :: i < k < |steps| ==> !Leaves(steps[k], c)
  }

  ghost predicate AttachedBy<C>(steps: seq<Step<C>>, c: C) {
    exists i :: AttachedAt(steps, c, i)
  }

  /** Step `j` is the last in which the client says what it wants. */
  ghost predicate LastWord<C>(steps: seq<Step<C>>, c: C, j: int) {
    && 0 <= j < |steps| && Speaks(steps[j], c)
    && forall k :: j < k < |steps| ==> !Speaks(steps[k], c)
  }

  lemma AttachedBySnoc<C>(steps: seq<Step<C>>, st: Step<C>, c: C)
    ensures AttachedBy(steps + [st], c) <==>
            (st.Attach? && st.c == c) || (AttachedBy(steps, c) && !Leaves(st, c))
  {
    var all := steps + [st];
    if i :| AttachedAt(all, c, i) {
      if i < |steps| {
        assert AttachedAt(steps, c, i) by {
          assert forall k :: 0 <= k < |steps| ==> all[k] == steps[k];
        }
        assert !Leaves(all[|steps|], c);
      }
    }
    if i :| AttachedAt(steps, c, i) && !Leaves(st, c) {
      assert AttachedAt(all, c, i);
    }
    if st.Attach? && st.c == c {
      assert AttachedAt(all, c, |steps|);
    }
  }

  /** In every run the wishes are those of the clients that have attached and not left, each as it was last expressed. */
  lemma {:induction false} VotesAreTheLastWords<C>(states: seq<State<C>>, steps: seq<Step<C>>, c: C)
    requires Run(states, steps)
    ensures var votes := states[|steps|].votes;
            && (c in votes <==> AttachedBy(steps, c))
            && (forall j :: c in votes && LastWord(steps, c, j) ==> votes[c] == steps[j].size)
    decreases |steps|
  {
    if steps != [] {
      var n := |steps| - 1;
      var front, st := steps[..n], steps[n];
      VotesAreTheLastWords(states[..n + 1], front, c);
      assert steps == front + [st];
      AttachedBySnoc(front, st, c);
      assert Next(states[n], st, states[n + 1]);
      forall j | c in states[n + 1].votes && LastWord(steps, c, j)
        ensures states[n + 1].votes[c] == steps[j].size
      {
        if j < n {
          assert !Speaks(steps[n], c);
          assert LastWord(front, c, j);
        }
      }
    }
  }

  predicate Modest(s: Winsize) {
    s.cols < WORD && s.rows < WORD
  }

  /** The PTY has the effective size itself exactly when that fits 16 bits. */
  lemma PtyHasTheSize<C>(states: seq<State<C>>, steps: seq<Step<C>>)
    requires Run(states, steps)
    ensures var s := states[|steps|].screen;
            (s.ptyCols == s.cols && s.ptyRows == s.rows) <==> Modest(Winsize(s.cols, s.rows))
  {
    RunSettles(states, steps);
  }

  /** Which it does when the initial size and all wishes do. */
  lemma {:induction false} ModestVotesStayModest<C>(states: seq<State<C>>, steps: seq<Step<C>>)
    requires Run(states, steps)
    requires Modest(Winsize(states[0].screen.cols, states[0].screen.rows))
    requires forall i :: 0 <= i < |steps| && (steps[i].Attach? || steps[i].Resize?) ==> Modest(steps[i].size)
    ensures var s := states[|steps|];
            && Modest(Winsize(s.screen.cols, s.screen.rows))
            && forall c :: c in s.votes ==> Modest(s.votes[c])
    decreases |steps|
  {
    if steps != [] {
      var n := |steps| - 1;
      ModestVotesStayModest(states[..n + 1], steps[..n]);
      ModestStep(states[n], steps[n], states[n + 1]);
    }
  }

  lemma ModestStep<C>(s: State<C>, st: Step<C>, s': State<C>)
    requires Next(s, st, s') && Modest(Winsize(s.screen.cols, s.screen.rows))
    requires forall c :: c in s.votes ==> Modest(s.votes[c])
    requires st.Attach? || st.Resize? ==> Modest(st.size)
    ensures Modest(Winsize(s'.screen.cols, s'.screen.rows))
    ensures forall c :: c in s'.votes ==> Modest(s'.votes[c])
  {
    if !st.Clear? {
      var m := LeastExists(Cols(s'.votes));
      var n := LeastExists(Rows(s'.votes));
      assert m in Cols(s'.votes) ==> m < WORD;
      assert n in Rows(s'.votes) ==> n < WORD;
    }
  }

  /** A step after which some dimension has no wish leaves the size alone. */
  lemma NoWishNoChange<C>(s: State<C>, st: Step<C>, s': State<C>)
    requires Next(s, st, s')
    requires (forall c :: c in s'.votes ==> s'.votes[c].cols <= 0) || (forall c :: c in s'.votes ==> s'.votes[c].rows <= 0)
    ensures s'.screen == s.screen
  {
    if !st.Clear? {
      var m := LeastExists(Cols(s'.votes));
      var n := LeastExists(Rows(s'.votes));
      assert m == 0 || n == 0;
    }
  }
}
