/**
 The retrograde solver of the cat and mouse game: positions are labelled backwards
 from the finished ones, with a counter of unprocessed successors per position.

 The proof has two halves.  A run of the solver leaves a *settled* labelling, and a
 settled labelling says exactly which player can force a win.
 */
module CatMouseSolver {
  import opened Listings
  import opened CatMouseGame

  type Labels = map<State, Outcome>

  ghost function Label(lab: Labels, s: State): Outcome {
    if s in lab then lab[s] else Draw
  }

  /** p wins at s by moving to an earlier won position, or because every answer of the opponent is one. */
  ghost predicate Forced(g: Graph, lab: Labels, earlier: seq<State>, s: State, p: Player)
    requires InGame(g, s)
  {
    if s.turn == p then
      exists t :: Move(g, s, t) && t in earlier && Label(lab, t) == Win(p)
    else
      CanMove(g, s) && forall t :: Move(g, s, t) ==> t in earlier && Label(lab, t) == Win(p)
  }

  ghost predicate Reason(g: Graph, lab: Labels, earlier: seq<State>, s: State) {
    && InGame(g, s)
    && if Over(s) then Label(lab, s) == Finished(s)
       else exists p :: Label(lab, s) == Win(p) && Forced(g, lab, earlier, s, p)
  }

  function Finished(s: State): Outcome {
    if s.mouse == 0 then MouseWin else CatWin
  }

  /** log lists the labelled positions in the order in which they were labelled, each for a reason. */
  ghost predicate Justified(g: Graph, lab: Labels, log: seq<State>) {
    forall k {:trigger log[..k]} :: 0 <= k < |log| ==> Reason(g, lab, log[..k], log[k])
  }

  /** A drawn position offers no winning move, and a drawn one whenever there is a move at all. */
  ghost predicate Drawn(g: Graph, lab: Labels, s: State)
    requires InGame(g, s)
  {
    && (forall t :: Move(g, s, t) ==> Label(lab, t) != Win(s.turn))
    && (CanMove(g, s) ==> exists t :: Move(g, s, t) && Label(lab, t) == Draw)
  }

  ghost predicate Settled(g: Graph, lab: Labels, log: seq<State>) {
    && SimpleUndirected(g)
    && Distinct(log)
    && Justified(g, lab, log)
    && (forall s :: InGame(g, s) ==> (s in log <==> Label(lab, s) != Draw))
    && (forall s :: InGame(g, s) && Over(s) ==> Label(lab, s) == Finished(s))
    && (forall s :: InGame(g, s) && Label(lab, s) == Draw ==> Drawn(g, lab, s))
  }

  // ---------- From a settled labelling to strategies ----------

  /** What p should do at s: go to an earlier won position, else to a drawn one, else anywhere. */
  ghost function Advice(g: Graph, lab: Labels, log: seq<State>, p: Player, s: State): State
    requires Settled(g, lab, log)
  {
    if !InGame(g, s) || !CanMove(g, s) then s
    else if exists k, t ::
      0 <= k < |log| && log[k] == s && Move(g, s, t) && t in log[..k] && Label(lab, t) == Win(p) then
      var k, t :| 0 <= k < |log| && log[k] == s && Move(g, s, t) && t in log[..k] && Label(lab, t) == Win(p);
      t
    else if exists t :: Move(g, s, t) && Label(lab, t) == Draw then
      var t :| Move(g, s, t) && Label(lab, t) == Draw;
      t
    else
      var t :| Move(g, s, t);
      t
  }

  ghost function Plan(g: Graph, lab: Labels, log: seq<State>, p: Player): (sigma: Strategy)
    requires Settled(g, lab, log)
    ensures IsStrategy(g, p, sigma)
  {
    (s: State) => Advice(g, lab, log, p, s)
  }

  lemma {:induction false} PlanWins(g: Graph, lab: Labels, log: seq<State>, p: Player, s: State, play: Play, j: nat,
                                    k: nat)
    requires Settled(g, lab, log)
    requires IsPlay(g, p, Plan(g, lab, log, p), s, play)
    requires k < |log| && log[k] == play(j) && Label(lab, log[k]) == Win(p)
    ensures Reaches(play, p)
    decreases k
  {
    var u := play(j);
    assert Reason(g, lab, log[..k], u);
    if Over(u) {
      assert WonBy(p, u);
    } else {
      assert Forced(g, lab, log[..k], u, p);
      var v := play(j + 1);
      assert Step(g, u, v) && Obeys(g, p, Plan(g, lab, log, p), u, v);
      if u.turn == p {
        assert v == Advice(g, lab, log, p, u);
      }
      assert v in log[..k] && Label(lab, v) == Win(p);
      var k' :| 0 <= k' < k && log[..k][k'] == v;
      PlanWins(g, lab, log, p, s, play, j + 1, k');
    }
  }

  lemma {:induction false} PlanKeepsSafe(g: Graph, lab: Labels, log: seq<State>, p: Player, s: State, play: Play,
                                         j: nat)
    requires Settled(g, lab, log) && InGame(g, s) && Label(lab, s) != Win(Other(p))
    requires IsPlay(g, p, Plan(g, lab, log, p), s, play)
    ensures InGame(g, play(j)) && Label(lab, play(j)) != Win(Other(p))
  {
    if j != 0 {
      PlanKeepsSafe(g, lab, log, p, s, play, j - 1);
      var u, v := play(j - 1), play(j - 1 + 1);
      assert Step(g, u, v) && Obeys(g, p, Plan(g, lab, log, p), u, v);
      if !Over(u) && CanMove(g, u) {
        MoveStaysInGame(g, u, v);
        if u in log {
          var k :| 0 <= k < |log| && log[k] == u;
          assert Reason(g, lab, log[..k], u);
          assert Forced(g, lab, log[..k], u, p);
        } else {
          assert Drawn(g, lab, u);
        }
      }
    }
  }

  lemma LabelledWinIsForced(g: Graph, lab: Labels, log: seq<State>, p: Player, s: State)
    requires Settled(g, lab, log) && InGame(g, s) && Label(lab, s) == Win(p)
    ensures CanForceWin(g, p, s)
  {
    var sigma := Plan(g, lab, log, p);
    var k :| 0 <= k < |log| && log[k] == s;
    forall play: Play | IsPlay(g, p, sigma, s, play)
      ensures Reaches(play, p)
    {
      PlanWins(g, lab, log, p, s, play, 0, k);
    }
    assert Winning(g, p, sigma, s);
  }

  lemma NotLabelledLostIsSafe(g: Graph, lab: Labels, log: seq<State>, p: Player, s: State)
    requires Settled(g, lab, log) && InGame(g, s) && Label(lab, s) != Win(Other(p))
    ensures CanAvoidLoss(g, p, s)
  {
    var sigma := Plan(g, lab, log, p);
    forall play: Play | IsPlay(g, p, sigma, s, play)
      ensures !Reaches(play, Other(p))
    {
      forall j: nat
        ensures !WonBy(Other(p), play(j))
      {
        PlanKeepsSafe(g, lab, log, p, s, play, j);
      }
    }
    assert Safe(g, p, sigma, s);
  }

  /** The label of a position in the sense of the game: who can force a win, if anyone. */
  ghost predicate LabelIsValue(g: Graph, lab: Labels, s: State) {
    && (Label(lab, s) == MouseWin <==> CanForceWin(g, Mouse, s))
    && (Label(lab, s) == CatWin <==> CanForceWin(g, Cat, s))
    && (Label(lab, s) == Draw <==> CanAvoidLoss(g, Mouse, s) && CanAvoidLoss(g, Cat, s))
  }

  lemma SettledIsExact(g: Graph, lab: Labels, log: seq<State>, s: State)
    requires Settled(g, lab, log) && InGame(g, s)
    ensures LabelIsValue(g, lab, s)
  {
    WinningExcludesSafe(g, Mouse, s);
    WinningExcludesSafe(g, Cat, s);
    forall p: Player
      ensures Label(lab, s) == Win(p) ==> CanForceWin(g, p, s)
      ensures Label(lab, s) != Win(Other(p)) ==> CanAvoidLoss(g, p, s)
    {
      if Label(lab, s) == Win(p) { LabelledWinIsForced(g, lab, log, p, s); }
      if Label(lab, s) != Win(Other(p)) { NotLabelledLostIsSafe(g, lab, log, p, s); }
    }
    assert Label(lab, s) == Win(Mouse) ==> CanForceWin(g, Mouse, s);
    assert Label(lab, s) == Win(Cat) ==> CanForceWin(g, Cat, s);
  }

  // ---------- The state of a run ----------

  type Degrees = map<State, int>

  ghost function Succ(g: Graph, s: State): (r: set<State>)
    requires InGame(g, s)
    ensures forall t :: t in r <==> Move(g, s, t)
  {
    match s.turn
    case Mouse => set x | x in g[s.mouse] :: State(x, s.cat, Cat)
    case Cat => set x | x in g[s.cat] && x != 0 :: State(s.mouse, x, Mouse)
  }

  ghost function Preds(g: Graph, t: State): set<State> {
    set s | s in Positions(|g|) && InGame(g, s) && Move(g, s, t)
  }

  function Positions(n: nat): (r: set<State>)
    ensures forall s :: s in r <==> s.mouse < n && s.cat < n
  {
    var r := set m: nat, c: nat, p: Player | m < n && c < n :: State(m, c, p);
    assert forall s: State :: s == State(s.mouse, s.cat, s.turn);
    r
  }

  /** The successors of s already taken into account: all processed ones, but not yet cur while s is in todo. */
  ghost function Done(processed: seq<State>, cur: State, todo: set<State>, s: State): set<State> {
    (set t | t in processed) - (if s in todo then {cur} else {})
  }

  ghost predicate Counted(g: Graph, lab: Labels, deg: Degrees, done: set<State>, s: State)
    requires InGame(g, s) && s in deg
  {
    && deg[s] == |Succ(g, s) - done|
    && (forall t :: t in Succ(g, s) && t in done ==> Label(lab, t) == Win(Other(s.turn)))
    && (Succ(g, s) != {} ==> deg[s] > 0)
  }

  /** log is every position ever queued, in order: exactly the labelled ones, each for a reason. */
  ghost predicate Logged(g: Graph, lab: Labels, log: seq<State>) {
    && SimpleUndirected(g)
    && Distinct(log)
    && Justified(g, lab, log)
    && (forall s {:trigger s in lab} :: InGame(g, s) ==> s in lab)
    && (forall s {:trigger s in log} :: InGame(g, s) ==> (s in log <==> Label(lab, s) != Draw))
    && (forall s {:trigger Over(s)} :: InGame(g, s) && Over(s) ==> Label(lab, s) == Finished(s))
  }

  /**
   The counters are right for the first h positions of log, which have been taken from the
   queue; cur is the position being processed, and todo are those of its predecessors that
   have not been looked at yet.
   */
  ghost predicate Counters(g: Graph, lab: Labels, deg: Degrees, log: seq<State>, h: nat, cur: State, todo: set<State>) {
    && h <= |log|
    && (forall s :: InGame(g, s) ==> s in deg)
    && (forall s {:trigger Done(log[..h], cur, todo, s)} ::
          InGame(g, s) && Label(lab, s) == Draw ==> Counted(g, lab, deg, Done(log[..h], cur, todo, s), s))
  }

  lemma QueueEmptyIsSettled(g: Graph, lab: Labels, deg: Degrees, log: seq<State>, cur: State)
    requires Logged(g, lab, log) && Counters(g, lab, deg, log, |log|, cur, {})
    ensures Settled(g, lab, log)
  {
    assert log[..|log|] == log;
    forall s | InGame(g, s) && Label(lab, s) == Draw
      ensures Drawn(g, lab, s)
    {
      var done := Done(log, cur, {}, s);
      assert Counted(g, lab, deg, done, s);
      forall t | Move(g, s, t)
        ensures Label(lab, t) != Win(s.turn)
      {
        MoveStaysInGame(g, s, t);
        assert t in Succ(g, s);
      }
      if CanMove(g, s) {
        var t0 :| Move(g, s, t0);
        assert t0 in Succ(g, s);
        var t :| t in Succ(g, s) - done;
        MoveStaysInGame(g, s, t);
        assert Move(g, s, t) && Label(lab, t) == Draw;
      }
    }
  }

  lemma CountedTransfers(g: Graph, lab: Labels, deg: Degrees, done: set<State>, lab': Labels, deg': Degrees,
                         done': set<State>, s: State)
    requires InGame(g, s) && s in deg && s in deg' && Counted(g, lab, deg, done, s)
    requires deg'[s] == deg[s]
    requires forall t :: t in Succ(g, s) ==> (t in done <==> t in done')
    requires forall t :: t in done ==> Label(lab', t) == Label(lab, t)
    ensures Counted(g, lab', deg', done', s)
  {
    assert Succ(g, s) - done == Succ(g, s) - done';
  }

  lemma DoneAfterDequeue(g: Graph, log: seq<State>, h: nat, cur: State, s: State, t: State)
    requires h < |log| && log[h] !in log[..h] && InGame(g, s) && Move(g, s, t)
    ensures t in Done(log[..h], cur, {}, s) <==> t in Done(log[..h + 1], log[h], Preds(g, log[h]), s)
  {
    assert log[..h + 1] == log[..h] + [log[h]];
    assert s in Preds(g, log[h]) <==> Move(g, s, log[h]);
  }

  /** Taking the next position from the queue. */
  lemma Dequeue(g: Graph, lab: Labels, deg: Degrees, log: seq<State>, h: nat, cur: State)
    requires Logged(g, lab, log) && Counters(g, lab, deg, log, h, cur, {}) && h < |log|
    ensures Counters(g, lab, deg, log, h + 1, log[h], Preds(g, log[h]))
    ensures InGame(g, log[h]) && Label(lab, log[h]) != Draw
  {
    assert Reason(g, lab, log[..h], log[h]);
    assert log[h] !in log[..h];
    DequeueCounters(g, lab, deg, log, h, cur);
  }

  lemma DequeueCounters(g: Graph, lab: Labels, deg: Degrees, log: seq<State>, h: nat, cur: State)
    requires Counters(g, lab, deg, log, h, cur, {}) && h < |log| && log[h] !in log[..h]
    ensures Counters(g, lab, deg, log, h + 1, log[h], Preds(g, log[h]))
  {
    forall s | InGame(g, s) && Label(lab, s) == Draw
      ensures Counted(g, lab, deg, Done(log[..h + 1], log[h], Preds(g, log[h]), s), s)
    {
      var done, done' := Done(log[..h], cur, {}, s), Done(log[..h + 1], log[h], Preds(g, log[h]), s);
      assert Counted(g, lab, deg, done, s);
      forall t | t in Succ(g, s)
        ensures t in done <==> t in done'
      {
        DoneAfterDequeue(g, log, h, cur, s, t);
      }
      CountedTransfers(g, lab, deg, done, lab, deg, done', s);
    }
  }

  lemma ForcedStays(g: Graph, lab: Labels, earlier: seq<State>, s: State, p: Player, q: State, o: Outcome)
    requires InGame(g, s) && Forced(g, lab, earlier, s, p) && q !in earlier
    ensures Forced(g, lab[q := o], earlier, s, p)
  {
    assert forall t :: t in earlier ==> Label(lab[q := o], t) == Label(lab, t);
  }

  lemma ReasonStays(g: Graph, lab: Labels, earlier: seq<State>, s: State, q: State, o: Outcome)
    requires Reason(g, lab, earlier, s) && q !in earlier && s != q
    ensures Reason(g, lab[q := o], earlier, s)
  {
    if !Over(s) {
      var p :| Label(lab, s) == Win(p) && Forced(g, lab, earlier, s, p);
      ForcedStays(g, lab, earlier, s, p, q, o);
    }
  }

  lemma JustifiedGrows(g: Graph, lab: Labels, log: seq<State>, q: State, p: Player)
    requires Justified(g, lab, log) && q !in log
    requires InGame(g, q) && !Over(q) && Forced(g, lab, log, q, p)
    ensures Justified(g, lab[q := Win(p)], log + [q])
  {
    var lab', log' := lab[q := Win(p)], log + [q];
    forall k | 0 <= k < |log'|
      ensures Reason(g, lab', log'[..k], log'[k])
    {
      if k < |log| {
        assert log'[..k] == log[..k];
        assert Reason(g, lab, log[..k], log[k]);
        ReasonStays(g, lab, log[..k], log[k], q, Win(p));
      } else {
        assert log'[..k] == log;
        ForcedStays(g, lab, log, q, p, q, Win(p));
      }
    }
  }

  /** Labelling a drawn position q as won by p, and queueing it. */
  lemma LogGrows(g: Graph, lab: Labels, log: seq<State>, q: State, p: Player)
    requires Logged(g, lab, log)
    requires InGame(g, q) && Label(lab, q) == Draw && Forced(g, lab, log, q, p)
    ensures Logged(g, lab[q := Win(p)], log + [q])
  {
    assert q !in log && !Over(q);
    JustifiedGrows(g, lab, log, q, p);
  }

  ghost predicate SameElsewhere(deg: Degrees, deg': Degrees, q: State) {
    forall s :: s in deg ==> s in deg' && (s != q ==> deg'[s] == deg[s])
  }

  lemma CountersIgnoreLabelled(g: Graph, lab: Labels, deg: Degrees, log: seq<State>, h: nat, cur: State,
                               todo: set<State>, q: State, p: Player, deg': Degrees)
    requires Counters(g, lab, deg, log, h, cur, todo)
    requires InGame(g, q) && Label(lab, q) == Draw && q !in log && SameElsewhere(deg, deg', q)
    ensures Counters(g, lab[q := Win(p)], deg', log + [q], h, cur, todo - {q})
  {
    var lab', log' := lab[q := Win(p)], log + [q];
    assert log'[..h] == log[..h];
    forall s | InGame(g, s) && Label(lab', s) == Draw
      ensures Counted(g, lab', deg', Done(log'[..h], cur, todo - {q}, s), s)
    {
      var done := Done(log[..h], cur, todo, s);
      assert Counted(g, lab, deg, done, s);
      CountedTransfers(g, lab, deg, done, lab', deg', Done(log'[..h], cur, todo - {q}, s), s);
    }
  }

  /** Looking at a predecessor q of cur that already has a label changes nothing. */
  lemma SkipLabelled(g: Graph, lab: Labels, deg: Degrees, log: seq<State>, h: nat, cur: State, todo: set<State>,
                     q: State)
    requires Counters(g, lab, deg, log, h, cur, todo)
    requires InGame(g, q) && Label(lab, q) != Draw
    ensures Counters(g, lab, deg, log, h, cur, todo - {q})
  {
    forall s | InGame(g, s) && Label(lab, s) == Draw
      ensures Counted(g, lab, deg, Done(log[..h], cur, todo - {q}, s), s)
    {
      assert Done(log[..h], cur, todo - {q}, s) == Done(log[..h], cur, todo, s);
    }
  }

  /** The counter of q, once cur is taken into account. */
  lemma Decrement(g: Graph, lab: Labels, deg: Degrees, log: seq<State>, h: nat, cur: State, todo: set<State>, q: State)
    requires Counters(g, lab, deg, log, h, cur, todo)
    requires 0 < h && cur == log[h - 1] && q in todo
    requires InGame(g, q) && Move(g, q, cur) && Label(lab, q) == Draw && Label(lab, cur) == Win(Other(q.turn))
    ensures deg[q] > 0
    ensures deg[q] == 1 ==> Forced(g, lab, log, q, Other(q.turn))
    ensures deg[q] != 1 ==> Counters(g, lab, deg[q := deg[q] - 1], log, h, cur, todo - {q})
  {
    var done, done' := Done(log[..h], cur, todo, q), Done(log[..h], cur, todo - {q}, q);
    assert Counted(g, lab, deg, done, q);
    assert cur in Succ(g, q) - done;
    assert log[..h][h - 1] == cur;
    assert done' == done + {cur};
    assert Succ(g, q) - done' == (Succ(g, q) - done) - {cur};
    if deg[q] == 1 {
      forall t | Move(g, q, t)
        ensures t in log && Label(lab, t) == Win(Other(q.turn))
      {
        assert t in Succ(g, q) && t !in Succ(g, q) - done';
      }
      assert CanMove(g, q);
    } else {
      var deg' := deg[q := deg[q] - 1];
      assert Counted(g, lab, deg', done', q);
      forall s | InGame(g, s) && Label(lab, s) == Draw
        ensures Counted(g, lab, deg', Done(log[..h], cur, todo - {q}, s), s)
      {
        if s != q {
          var done := Done(log[..h], cur, todo, s);
          assert Counted(g, lab, deg, done, s);
          CountedTransfers(g, lab, deg, done, lab, deg', Done(log[..h], cur, todo - {q}, s), s);
        }
      }
    }
  }

  /** What the solver has written so far: the two tables, and every position ever queued. */
  datatype Tables = Tables(lab: Labels, deg: Degrees, log: seq<State>)

  /** The tables after looking at the predecessor q of cur. */
  ghost function Visited(r: Tables, cur: State, q: State): Tables
    requires q in r.deg
  {
    if Label(r.lab, q) != Draw then r
    else if Label(r.lab, cur) == Win(q.turn) then Tables(r.lab[q := Win(q.turn)], r.deg, r.log + [q])
    else if r.deg[q] == 1 then Tables(r.lab[q := Win(Other(q.turn))], r.deg[q := 0], r.log + [q])
    else r.(deg := r.deg[q := r.deg[q] - 1])
  }

  ghost function VisitedAll(r: Tables, cur: State, qs: seq<State>): (r': Tables)
    requires forall q :: q in qs ==> q in r.deg
    ensures r'.deg.Keys == r.deg.Keys
  {
    if qs == [] then r
    else
      var r' := VisitedAll(r, cur, qs[..|qs| - 1]);
      assert qs[|qs| - 1] in qs;
      Visited(r', cur, qs[|qs| - 1])
  }

  lemma VisitedAllStep(r: Tables, cur: State, qs: seq<State>, q: State)
    requires q in r.deg && forall q :: q in qs ==> q in r.deg
    ensures VisitedAll(r, cur, qs + [q]) == Visited(VisitedAll(r, cur, qs), cur, q)
  {
    assert (qs + [q])[..|qs|] == qs;
  }

  ghost predicate Sound(g: Graph, r: Tables, h: nat, cur: State, todo: set<State>) {
    Logged(g, r.lab, r.log) && Counters(g, r.lab, r.deg, r.log, h, cur, todo)
  }

  lemma VisitLabels(g: Graph, r: Tables, h: nat, cur: State, todo: set<State>, q: State, p: Player, deg': Degrees)
    requires Sound(g, r, h, cur, todo)
    requires InGame(g, q) && Label(r.lab, q) == Draw && Forced(g, r.lab, r.log, q, p) && SameElsewhere(r.deg, deg', q)
    ensures Sound(g, Tables(r.lab[q := Win(p)], deg', r.log + [q]), h, cur, todo - {q})
  {
    LogGrows(g, r.lab, r.log, q, p);
    CountersIgnoreLabelled(g, r.lab, r.deg, r.log, h, cur, todo, q, p, deg');
  }

  lemma VisitCounts(g: Graph, r: Tables, h: nat, cur: State, todo: set<State>, q: State)
    requires Sound(g, r, h, cur, todo)
    requires 0 < h <= |r.log| && cur == r.log[h - 1] && q in todo && InGame(g, q) && Move(g, q, cur)
    requires Label(r.lab, q) == Draw && Label(r.lab, cur) == Win(Other(q.turn))
    ensures q in r.deg && Sound(g, Visited(r, cur, q), h, cur, todo - {q})
  {
    Decrement(g, r.lab, r.deg, r.log, h, cur, todo, q);
    if r.deg[q] == 1 {
      VisitLabels(g, r, h, cur, todo, q, Other(q.turn), r.deg[q := 0]);
    }
  }

  lemma VisitWins(g: Graph, r: Tables, h: nat, cur: State, todo: set<State>, q: State)
    requires Sound(g, r, h, cur, todo)
    requires 0 < h <= |r.log| && cur == r.log[h - 1] && InGame(g, q) && Move(g, q, cur)
    requires Label(r.lab, q) == Draw && Label(r.lab, cur) == Win(q.turn)
    ensures q in r.deg && Sound(g, Visited(r, cur, q), h, cur, todo - {q})
  {
    VisitLabels(g, r, h, cur, todo, q, q.turn, r.deg);
  }

  /** Looking at a predecessor keeps the tables sound, whichever of the four cases applies. */
  lemma VisitKeepsSound(g: Graph, r: Tables, h: nat, cur: State, todo: set<State>, q: State)
    requires Sound(g, r, h, cur, todo)
    requires 0 < h <= |r.log| && cur == r.log[h - 1] && q in todo && InGame(g, q) && Move(g, q, cur)
    requires InGame(g, cur) && Label(r.lab, cur) != Draw
    ensures q in r.deg && Sound(g, Visited(r, cur, q), h, cur, todo - {q})
  {
    if Label(r.lab, q) != Draw {
      SkipLabelled(g, r.lab, r.deg, r.log, h, cur, todo, q);
    } else if Label(r.lab, cur) == Win(q.turn) {
      VisitWins(g, r, h, cur, todo, q);
    } else {
      VisitCounts(g, r, h, cur, todo, q);
    }
  }

  /** Processing cur: every predecessor is looked at once, and then nothing is left to do. */
  lemma {:induction false} VisitAllKeepsSound(g: Graph, r: Tables, h: nat, cur: State, todo: set<State>, qs: seq<State>)
    requires Sound(g, r, h, cur, todo)
    requires 0 < h <= |r.log| && cur == r.log[h - 1] && InGame(g, cur) && Label(r.lab, cur) != Draw
    requires Distinct(qs)
    requires forall q :: q in qs ==> q in r.deg && q in todo && InGame(g, q) && Move(g, q, cur)
    ensures var r' := VisitedAll(r, cur, qs);
      && Sound(g, r', h, cur, todo - (set q | q in qs))
      && h <= |r'.log| && cur == r'.log[h - 1] && Label(r'.lab, cur) == Label(r.lab, cur)
  {
    if qs == [] {
      assert todo - (set q | q in qs) == todo;
    } else {
      var init, q := qs[..|qs| - 1], qs[|qs| - 1];
      assert q in qs && q !in init && qs == init + [q];
      VisitAllKeepsSound(g, r, h, cur, todo, init);
      VisitKeepsSound(g, VisitedAll(r, cur, init), h, cur, todo - (set q | q in init), q);
      VisitKeepsFront(VisitedAll(r, cur, init), h, cur, q);
      assert todo - (set q | q in qs) == todo - (set q | q in init) - {q};
    }
  }

  /** One round of the main loop: the front of the queue is processed. */
  lemma RoundKeepsSound(g: Graph, r: Tables, h: nat, cur: State, qs: seq<State>)
    requires Sound(g, r, h, cur, {}) && h < |r.log|
    requires Distinct(qs) && forall q :: q in qs <==> InGame(g, q) && Move(g, q, r.log[h])
    requires forall q :: q in qs ==> q in r.deg
    ensures Sound(g, VisitedAll(r, r.log[h], qs), h + 1, r.log[h], {})
  {
    var todo := Preds(g, r.log[h]);
    Dequeue(g, r.lab, r.deg, r.log, h, cur);
    assert forall q :: q in qs <==> q in todo;
    VisitAllKeepsSound(g, r, h + 1, r.log[h], todo, qs);
    assert todo - (set q | q in qs) == {};
  }

  lemma VisitKeepsFront(r: Tables, h: nat, cur: State, q: State)
    requires 0 < h <= |r.log| && cur == r.log[h - 1] && Label(r.lab, cur) != Draw && q in r.deg
    ensures var r' := Visited(r, cur, q);
      h <= |r'.log| && cur == r'.log[h - 1] && Label(r'.lab, cur) == Label(r.lab, cur)
  {
  }

  lemma AppendPair(log: seq<State>, a: State, b: State)
    requires Distinct(log) && a !in log && b !in log && a != b
    ensures Distinct(log + [a] + [b])
    ensures forall s :: s in log + [a] + [b] <==> s in log || s == a || s == b
  {
    assert forall i :: 0 <= i < |log| ==> log[i] in log;
  }

  // ---------- The initial counters ----------

  lemma {:induction false} SizeOfImage(a: seq<nat>, f: nat -> State)
    requires forall i, j :: 0 <= i < j < |a| ==> a[i] != a[j]
    requires forall x, y :: f(x) == f(y) ==> x == y
    ensures |set x | x in a :: f(x)| == |a|
  {
    if a != [] {
      var b, z := a[..|a| - 1], a[|a| - 1];
      SizeOfImage(b, f);
      assert a == b + [z];
      assert (set x | x in a :: f(x)) == (set x | x in b :: f(x)) + {f(z)};
      assert f(z) !in (set x | x in b :: f(x));
    }
  }

  function EdgeCount(g: Graph, s: State): nat
    requires InGame(g, s)
  {
    if s.turn == Mouse then |g[s.mouse]| else |g[s.cat]|
  }

  /** Number of legal moves: the cat does not count the edge to the hole. */
  function MoveCount(g: Graph, s: State): int
    requires InGame(g, s)
  {
    EdgeCount(g, s) - (if s.turn == Cat && s.cat in g[0] then 1 else 0)
  }

  lemma MoveCountIsSuccCount(g: Graph, s: State)
    requires SimpleUndirected(g) && InGame(g, s)
    ensures MoveCount(g, s) == |Succ(g, s)|
  {
    if s.turn == Mouse {
      var f := (x: nat) => State(x, s.cat, Cat);
      SizeOfImage(g[s.mouse], f);
      assert Succ(g, s) == set x | x in g[s.mouse] :: f(x);
    } else {
      var f := (x: nat) => State(s.mouse, x, Mouse);
      SizeOfImage(g[s.cat], f);
      var all := set x | x in g[s.cat] :: f(x);
      assert f(0) in all <==> 0 in g[s.cat];
      assert Succ(g, s) == all - {f(0)};
    }
  }

  lemma InitiallyRunning(g: Graph, lab: Labels, deg: Degrees, log: seq<State>, cur: State)
    requires SimpleUndirected(g) && Distinct(log)
    requires forall s :: InGame(g, s) ==> s in lab && s in deg && deg[s] == MoveCount(g, s)
    requires forall s :: s in log <==> InGame(g, s) && Over(s)
    requires forall s :: InGame(g, s) ==> Label(lab, s) == if Over(s) then Finished(s) else Draw
    ensures Sound(g, Tables(lab, deg, log), 0, cur, {})
  {
    forall s | InGame(g, s) && Label(lab, s) == Draw
      ensures Counted(g, lab, deg, Done(log[..0], cur, {}, s), s)
    {
      MoveCountIsSuccCount(g, s);
      assert Succ(g, s) - Done(log[..0], cur, {}, s) == Succ(g, s);
    }
    forall k | 0 <= k < |log|
      ensures Reason(g, lab, log[..k], log[k])
    {
      assert log[k] in log;
    }
  }

  lemma {:induction false} LogIsBounded(log: seq<State>, all: set<State>)
    requires Distinct(log) && forall s :: s in log ==> s in all
    ensures |log| <= |all|
  {
    if log != [] {
      var rest, z := log[..|log| - 1], log[|log| - 1];
      assert z in log;
      assert forall s :: s in rest ==> s in log;
      LogIsBounded(rest, all - {z});
    }
  }

  lemma QueueIsBounded(g: Graph, r: Tables, h: nat, cur: State)
    requires Sound(g, r, h, cur, {})
    ensures |r.log| <= |Positions(|g|)|
    ensures forall q :: InGame(g, q) ==> q in r.lab && q in r.deg
    ensures forall q :: q in r.log ==> InGame(g, q)
  {
    forall k | 0 <= k < |r.log|
      ensures InGame(g, r.log[k])
    {
      assert Reason(g, r.lab, r.log[..k], r.log[k]);
    }
    LogIsBounded(r.log, Positions(|g|));
  }

  lemma FinishedRunIsExact(g: Graph, r: Tables, cur: State)
    requires Sound(g, r, |r.log|, cur, {})
    ensures forall s :: InGame(g, s) ==> s in r.lab && LabelIsValue(g, r.lab, s)
  {
    QueueIsBounded(g, r, |r.log|, cur);
    QueueEmptyIsSettled(g, r.lab, r.deg, r.log, cur);
    forall s | InGame(g, s)
      ensures LabelIsValue(g, r.lab, s)
    {
      SettledIsExact(g, r.lab, r.log, s);
    }
  }

  // ---------- The solver ----------

  class Solution {
    var graph: Graph
    var degrees: Degrees
    var results: Labels

    constructor ()
      ensures graph == [] && degrees == map[] && results == map[]
    {
      graph, degrees, results := [], map[], map[];
    }

    /** Every label is the value of its position in the game; the result is the value of the start. */
    method CatMouseGame(g: Graph) returns (r: Outcome)
      requires SimpleUndirected(g) && |g| >= 3
      modifies this
      ensures graph == g
      ensures forall s :: InGame(g, s) ==> s in results && LabelIsValue(g, results, s)
      ensures r == Label(results, State(1, 2, Mouse))
    {
      graph := g;
      var log := Init();
      var h := 0;
      var cur := State(0, 0, Mouse);
      while h < |log|
        invariant graph == g && Sound(g, Tables(results, degrees, log), h, cur, {})
        decreases |Positions(|g|)| - h
      {
        ghost var cur0, prevStates := cur, [];
        cur := log[h];
        ghost var before := Tables(results, degrees, log);
        QueueIsBounded(g, before, h, cur0);
        log, prevStates := Process(cur, log);
        RoundKeepsSound(g, before, h, cur0, prevStates);
        h := h + 1;
      }
      assert h == |log|;
      FinishedRunIsExact(g, Tables(results, degrees, log), cur);
      r := results[State(1, 2, Mouse)];
    }

    method Init() returns (log: seq<State>)
      requires SimpleUndirected(graph) && |graph| >= 1
      modifies this`degrees, this`results
      ensures Sound(graph, Tables(results, degrees, log), 0, State(0, 0, Mouse), {})
    {
      InitDegrees();
      log := InitResults();
      InitiallyRunning(graph, results, degrees, log, State(0, 0, Mouse));
    }

    /** Counters start at the number of legal moves. */
    method InitDegrees()
      requires SimpleUndirected(graph) && |graph| >= 1
      modifies this`degrees
      ensures forall s :: InGame(graph, s) ==> s in degrees && degrees[s] == MoveCount(graph, s)
    {
      CountEdges();
      DiscountHole();
    }

    method CountEdges()
      requires |graph| >= 1
      modifies this`degrees
      ensures degrees.Keys == Positions(|graph|)
      ensures forall s :: InGame(graph, s) ==> degrees[s] == EdgeCount(graph, s)
    {
      var n := |graph|;
      degrees := map s | s in Positions(n) :: 0;
      for i := 0 to n
        invariant degrees.Keys == Positions(n)
        invariant forall s :: InGame(graph, s) && s.mouse < i ==> degrees[s] == EdgeCount(graph, s)
      {
        CountRow(i);
      }
    }

    method CountRow(i: nat)
      requires i < |graph| && degrees.Keys == Positions(|graph|)
      modifies this`degrees
      ensures degrees.Keys == Positions(|graph|)
      ensures forall s :: s in degrees && s.mouse != i ==> degrees[s] == old(degrees)[s]
      ensures forall s :: InGame(graph, s) && s.mouse == i ==> degrees[s] == EdgeCount(graph, s)
    {
      for j := 1 to |graph|
        invariant degrees.Keys == Positions(|graph|)
        invariant forall s :: s in degrees && s.mouse != i ==> degrees[s] == old(degrees)[s]
        invariant forall s :: InGame(graph, s) && s.mouse == i && s.cat < j ==> degrees[s] == EdgeCount(graph, s)
      {
        degrees := degrees[State(i, j, Mouse) := |graph[i]|];
        degrees := degrees[State(i, j, Cat) := |graph[j]|];
      }
    }

    method DiscountHole()
      requires SimpleUndirected(graph) && |graph| >= 1 && degrees.Keys == Positions(|graph|)
      modifies this`degrees
      ensures degrees.Keys == Positions(|graph|)
      ensures forall s :: s in degrees ==>
                degrees[s] == old(degrees)[s] - (if s.turn == Cat && s.cat in graph[0] then 1 else 0)
    {
      var n, hole := |graph|, graph[0];
      for k := 0 to |hole|
        invariant degrees.Keys == Positions(n)
        invariant forall s :: s in degrees ==>
                    degrees[s] == old(degrees)[s] - (if s.turn == Cat && s.cat in hole[..k] then 1 else 0)
      {
        var node := hole[k];
        assert node in hole && node !in hole[..k];
        assert hole[..k + 1] == hole[..k] + [node];
        ghost var before := degrees;
        for i := 0 to n
          invariant degrees.Keys == Positions(n)
          invariant forall s :: s in degrees ==>
                      degrees[s] == before[s] - (if s.turn == Cat && s.cat == node && s.mouse < i then 1 else 0)
        {
          var s := State(i, node, Cat);
          degrees := degrees[s := degrees[s] - 1];
        }
      }
      assert hole[..|hole|] == hole;
    }

    /** The finished positions are labelled and queued. */
    method InitResults() returns (log: seq<State>)
      requires |graph| >= 1
      modifies this`results
      ensures results.Keys == Positions(|graph|)
      ensures Distinct(log) && forall s :: s in log <==> InGame(graph, s) && Over(s)
      ensures forall s :: InGame(graph, s) ==> results[s] == if Over(s) then Finished(s) else Draw
    {
      log := LabelHome();
      log := LabelCaught(log);
    }

    method LabelHome() returns (log: seq<State>)
      requires |graph| >= 1
      modifies this`results
      ensures results.Keys == Positions(|graph|) && Distinct(log)
      ensures forall s :: s in log <==> s.mouse == 0 && 1 <= s.cat < |graph|
      ensures forall s :: s in results ==> results[s] == if s in log then MouseWin else Draw
    {
      var n := |graph|;
      results := map s | s in Positions(n) :: Draw;
      log := [];
      for j := 1 to n
        invariant results.Keys == Positions(n) && Distinct(log)
        invariant forall s :: s in log <==> s.mouse == 0 && 1 <= s.cat < j
        invariant forall s :: s in results ==> results[s] == if s in log then MouseWin else Draw
      {
        AppendPair(log, State(0, j, Mouse), State(0, j, Cat));
        assert forall s: State | s.mouse == 0 && s.cat == j :: s.turn == Mouse || s.turn == Cat;
        results := results[State(0, j, Mouse) := MouseWin];
        results := results[State(0, j, Cat) := MouseWin];
        log := log + [State(0, j, Mouse)] + [State(0, j, Cat)];
      }
    }

    method LabelCaught(log0: seq<State>) returns (log: seq<State>)
      requires |graph| >= 1 && results.Keys == Positions(|graph|) && Distinct(log0)
      requires forall s :: s in log0 <==> s.mouse == 0 && 1 <= s.cat < |graph|
      requires forall s :: s in results ==> results[s] == if s in log0 then MouseWin else Draw
      modifies this`results
      ensures results.Keys == Positions(|graph|) && Distinct(log)
      ensures forall s :: s in log <==> InGame(graph, s) && Over(s)
      ensures forall s :: s in results ==> results[s] == if s in log then Finished(s) else Draw
    {
      var n := |graph|;
      log := log0;
      for i := 1 to n
        invariant results.Keys == Positions(n) && Distinct(log)
        invariant forall s :: s in log <==> 1 <= s.cat < n && (s.mouse == 0 || (s.mouse == s.cat && s.cat < i))
        invariant forall s :: s in results ==> results[s] == if s in log then Finished(s) else Draw
      {
        AppendPair(log, State(i, i, Mouse), State(i, i, Cat));
        assert forall s: State | s.mouse == i && s.cat == i :: s.turn == Mouse || s.turn == Cat;
        results := results[State(i, i, Mouse) := CatWin];
        results := results[State(i, i, Cat) := CatWin];
        log := log + [State(i, i, Mouse)] + [State(i, i, Cat)];
      }
    }

    method GetPrevStates(s: State) returns (prevStates: seq<State>)
      requires SimpleUndirected(graph) && InGame(graph, s)
      ensures Distinct(prevStates)
      ensures forall q :: q in prevStates <==> InGame(graph, q) && Move(graph, q, s)
    {
      prevStates := [];
      if Other(s.turn) == Mouse {
        var a := graph[s.mouse];
        for k := 0 to |a|
          invariant Distinct(prevStates)
          invariant forall q :: q in prevStates <==> q.turn == Mouse && q.cat == s.cat && q.mouse in a[..k]
        {
          assert a[..k + 1] == a[..k] + [a[k]];
          prevStates := prevStates + [State(a[k], s.cat, Mouse)];
        }
        assert a[..|a|] == a;
      } else {
        var a := graph[s.cat];
        for k := 0 to |a|
          invariant Distinct(prevStates)
          invariant forall q :: q in prevStates <==>
            q.turn == Cat && q.mouse == s.mouse && q.cat in a[..k] && q.cat != 0
        {
          assert a[..k + 1] == a[..k] + [a[k]];
          if a[k] != 0 {
            prevStates := prevStates + [State(s.mouse, a[k], Cat)];
          }
        }
        assert a[..|a|] == a;
      }
    }

    /** Propagates the label of cur to its predecessors, appending the newly labelled ones to the queue. */
    method Process(cur: State, log0: seq<State>) returns (log: seq<State>, ghost prevStates: seq<State>)
      requires SimpleUndirected(graph) && InGame(graph, cur)
      requires forall q :: InGame(graph, q) ==> q in results && q in degrees
      modifies this`degrees, this`results
      ensures Distinct(prevStates)
      ensures forall q :: q in prevStates <==> InGame(graph, q) && Move(graph, q, cur)
      ensures forall q :: q in prevStates ==> q in old(degrees)
      ensures Tables(results, degrees, log) == VisitedAll(old(Tables(results, degrees, log0)), cur, prevStates)
    {
      log := log0;
      var qs := GetPrevStates(cur);
      for k := 0 to |qs|
        invariant forall q :: InGame(graph, q) ==> q in results && q in degrees
        invariant forall q :: q in qs ==> q in old(degrees)
        invariant Tables(results, degrees, log) == VisitedAll(old(Tables(results, degrees, log0)), cur, qs[..k])
      {
        var q := qs[k];
        assert q in qs;
        VisitedAllStep(old(Tables(results, degrees, log0)), cur, qs[..k], q);
        assert qs[..k + 1] == qs[..k] + [q];
        log := Visit(q, cur, log);
      }
      assert qs[..|qs|] == qs;
      prevStates := qs;
    }

    /** Looks at one predecessor q of the position cur being processed. */
    method Visit(q: State, cur: State, log0: seq<State>) returns (log: seq<State>)
      requires q in results && cur in results && q in degrees
      modifies this`degrees, this`results
      ensures Tables(results, degrees, log) == Visited(old(Tables(results, degrees, log0)), cur, q)
    {
      var result := results[cur];
      log := log0;
      if results[q] == Draw {
        var canWin := (result == MouseWin && q.turn == Mouse) || (result == CatWin && q.turn == Cat);
        if canWin {
          results := results[q := result];
          log := log + [q];
        } else {
          degrees := degrees[q := degrees[q] - 1];
          if degrees[q] == 0 {
            var loseResult := if q.turn == Mouse then CatWin else MouseWin;
            results := results[q := loseResult];
            log := log + [q];
          }
        }
      }
    }
  }
}
