/**
 The game of cat and mouse on an undirected graph: its positions, its legal
 moves, strategies, infinite plays, and what it means for a player to be able to
 force a win or to avoid losing for ever.
 */
module CatMouseGame {

  type Graph = seq<seq<nat>>

  datatype Player = Mouse | Cat

  /** A position: where both players stand, and whose turn it is. */
  datatype State = State(mouse: nat, cat: nat, turn: Player)

  datatype Outcome = Draw | MouseWin | CatWin

  type Play = nat -> State
  type Strategy = State -> State

  function Other(p: Player): Player {
    if p == Mouse then Cat else Mouse
  }

  function Win(p: Player): Outcome {
    if p == Mouse then MouseWin else CatWin
  }

  /** Simple undirected graph: neighbours are nodes, listed once, in both directions. */
  ghost predicate SimpleUndirected(g: Graph) {
    && (forall i, x :: 0 <= i < |g| && x in g[i] ==> x < |g|)
    && (forall i, j :: 0 <= i < |g| && 0 <= j < |g| && i in g[j] ==> j in g[i])
    && (forall i, j, k :: 0 <= i < |g| && 0 <= j < k < |g[i]| ==> g[i][j] != g[i][k])
  }

  /** The cat is never in the hole, which is node 0. */
  predicate InGame(g: Graph, s: State) {
    s.mouse < |g| && 1 <= s.cat < |g|
  }

  predicate WonBy(p: Player, s: State) {
    match p
    case Mouse => s.mouse == 0
    case Cat => s.mouse == s.cat
  }

  predicate Over(s: State) {
    WonBy(Mouse, s) || WonBy(Cat, s)
  }

  /** The player whose turn it is moves along an edge; the cat may not enter the hole. */
  predicate Move(g: Graph, s: State, t: State)
    requires InGame(g, s)
  {
    match s.turn
    case Mouse => t.turn == Cat && t.cat == s.cat && t.mouse in g[s.mouse]
    case Cat => t.turn == Mouse && t.mouse == s.mouse && t.cat in g[s.cat] && t.cat != 0
  }

  ghost predicate CanMove(g: Graph, s: State)
    requires InGame(g, s)
  {
    exists t :: Move(g, s, t)
  }

  /** One step of a play.  A finished game, and a player without a move, stand still. */
  ghost predicate Step(g: Graph, s: State, t: State) {
    && InGame(g, s)
    && if Over(s) || !CanMove(g, s) then t == s else Move(g, s, t)
  }

  ghost predicate IsStrategy(g: Graph, p: Player, sigma: Strategy) {
    forall s :: InGame(g, s) && s.turn == p && CanMove(g, s) ==> Move(g, s, sigma(s))
  }

  /** Player p chooses by sigma wherever p has a choice. */
  ghost predicate Obeys(g: Graph, p: Player, sigma: Strategy, s: State, t: State) {
    InGame(g, s) && !Over(s) && CanMove(g, s) && s.turn == p ==> t == sigma(s)
  }

  /** An infinite play from s in which p follows sigma and the opponent moves freely. */
  ghost predicate IsPlay(g: Graph, p: Player, sigma: Strategy, s: State, play: Play) {
    && play(0) == s
    && forall k: nat :: Step(g, play(k), play(k + 1)) && Obeys(g, p, sigma, play(k), play(k + 1))
  }

  ghost predicate Reaches(play: Play, p: Player) {
    exists k: nat :: WonBy(p, play(k))
  }

  ghost predicate Winning(g: Graph, p: Player, sigma: Strategy, s: State) {
    && IsStrategy(g, p, sigma)
    && forall play: Play :: IsPlay(g, p, sigma, s, play) ==> Reaches(play, p)
  }

  ghost predicate Safe(g: Graph, p: Player, sigma: Strategy, s: State) {
    && IsStrategy(g, p, sigma)
    && forall play: Play :: IsPlay(g, p, sigma, s, play) ==> !Reaches(play, Other(p))
  }

  /** Some strategy of p wins every play from s, whatever the opponent does. */
  ghost predicate CanForceWin(g: Graph, p: Player, s: State) {
    exists sigma: Strategy :: Winning(g, p, sigma, s)
  }

  /** Some strategy of p never loses a play from s, whatever the opponent does. */
  ghost predicate CanAvoidLoss(g: Graph, p: Player, s: State) {
    exists sigma: Strategy :: Safe(g, p, sigma, s)
  }

  /** The play in which p follows sigma and the opponent follows tau. */
  ghost function Joint(g: Graph, p: Player, sigma: Strategy, tau: Strategy, s: State, k: nat): State {
    if k == 0 then s else
      var u := Joint(g, p, sigma, tau, s, k - 1);
      if !InGame(g, u) || Over(u) || !CanMove(g, u) then u
      else if u.turn == p then sigma(u) else tau(u)
  }

  lemma MoveStaysInGame(g: Graph, s: State, t: State)
    requires SimpleUndirected(g) && InGame(g, s) && Move(g, s, t)
    ensures InGame(g, t) && t.turn == Other(s.turn)
  {
  }

  lemma {:induction false} JointInGame(g: Graph, p: Player, sigma: Strategy, tau: Strategy, s: State, k: nat)
    requires SimpleUndirected(g) && InGame(g, s)
    requires IsStrategy(g, p, sigma) && IsStrategy(g, Other(p), tau)
    ensures InGame(g, Joint(g, p, sigma, tau, s, k))
  {
    if k != 0 {
      JointInGame(g, p, sigma, tau, s, k - 1);
      var u := Joint(g, p, sigma, tau, s, k - 1);
      if !Over(u) && CanMove(g, u) {
        MoveStaysInGame(g, u, if u.turn == p then sigma(u) else tau(u));
      }
    }
  }

  /** Two strategies meet in a play that both of them admit. */
  lemma JointIsPlay(g: Graph, p: Player, sigma: Strategy, tau: Strategy, s: State) returns (play: Play)
    requires SimpleUndirected(g) && InGame(g, s)
    requires IsStrategy(g, p, sigma) && IsStrategy(g, Other(p), tau)
    ensures IsPlay(g, p, sigma, s, play) && IsPlay(g, Other(p), tau, s, play)
  {
    play := (k: nat) => Joint(g, p, sigma, tau, s, k);
    forall k: nat
      ensures Step(g, play(k), play(k + 1))
      ensures Obeys(g, p, sigma, play(k), play(k + 1)) && Obeys(g, Other(p), tau, play(k), play(k + 1))
    {
      JointInGame(g, p, sigma, tau, s, k);
      assert play(k + 1) == Joint(g, p, sigma, tau, s, k + 1);
    }
  }

  /** One player's winning strategy refutes every safe strategy of the other. */
  lemma WinningExcludesSafe(g: Graph, p: Player, s: State)
    requires SimpleUndirected(g) && InGame(g, s)
    ensures !(CanForceWin(g, p, s) && CanAvoidLoss(g, Other(p), s))
  {
    forall sigma: Strategy, tau: Strategy | Winning(g, p, sigma, s)
      ensures !Safe(g, Other(p), tau, s)
    {
      if IsStrategy(g, Other(p), tau) {
        var play := JointIsPlay(g, p, sigma, tau, s);
        assert Reaches(play, Other(Other(p)));
      }
    }
  }
}
