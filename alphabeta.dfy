/** Why the explicit-stack alpha-beta loop of minimax_alphabeta in
    othello/othello.c returns the plain minimax value of Minimax.

    The loop keeps, for each depth k of the current path, a frame with the
    window values stack_alpha[k] and stack_beta[k], the best score so far
    stack_best_score[k], the index of the move being explored
    stack_move_idx[k], the board ai_buf[k] and the move list ai_moves[k].
    Frame k is explored inside the window (lo, hi) its parent had when it
    descended: (-INF, INF) for depth 1, (alpha[k-1], beta[k-1]) below. The
    invariant says that, seen through that window, the best score so far
    equals the fold of the children explored so far. A child's score is only
    ever known through its own window (Returns), which is all the parent needs.

    Three features of the loop shape the invariant:
    - after a cut at depth p the value of p is dropped, and p-1 moves on to
      its next move without absorbing it (this is harmless: the dropped value
      lies outside p-1's window on the side p-1 ignores);
    - a node without moves (a pass) gives its parent its static score, and the
      parent takes it without a cut test and without moving alpha or beta;
    - a cut at depth 1 cannot happen, since depth 1 is a minimising node whose
      alpha is -INF and every score lies strictly above -INF. */
module AlphaBeta {
  import opened Board
  import opened Evaluator
  import opened Minimax

  /** The most moves one depth can list: ai_moves has MAT_HEIGHT * MAT_WIDTH slots per depth. */
  const MaxMoves: int := 64

  /** v seen through the window [lo, hi]. */
  function Clamp(lo: int, hi: int, v: int): int
  {
    if v < lo then lo else if v > hi then hi else v
  }

  /** The score a node at depth k keeps after taking a child's score. */
  function Better(k: int, best: int, score: int): int
  {
    if k % 2 == 0 then Max(best, score) else Min(best, score)
  }

  /** Every move list fits in one row of ai_moves. */
  ghost predicate FitsBuffer(t: Game)
  {
    forall g: Grid, c: Stone :: |t.moves(g, c)| <= MaxMoves
  }

  /** Every listed move is a square of the board. */
  ghost predicate OnBoard(t: Game)
  {
    forall g: Grid, c: Stone, j | 0 <= j < |t.moves(g, c)| :: InBoard(t.moves(g, c)[j].x, t.moves(g, c)[j].y)
  }

  /** t is the game the program searches for the AI colour ai, stated through
      the program's own functions (each fact is used only where the program
      computes that function). */
  ghost predicate Plays(t: Game, ai: Stone)
  {
    (forall g: Grid {:trigger Evaluate(g, ai)} :: t.score(g) == Evaluate(g, ai)) &&
    (forall g: Grid, c: Stone {:trigger LegalMoves(g, c)} :: t.moves(g, c) == LegalMoves(g, c)) &&
    (forall g: Grid, m: Pos, c: Stone {:trigger Child(g, m, c)} :: t.play(g, m, c) == Child(g, m, c))
  }

  datatype Frame = Frame(alpha: int, beta: int, best: int, idx: int, board: Grid, moves: seq<Pos>)

  /** The path being searched: frames 0 .. AI_DEPTH, of which 1 .. depth are live. */
  datatype Stack = Stack(depth: int, frames: seq<Frame>)

  predicate Shaped(st: Stack)
  {
    |st.frames| == AiDepth + 1
  }

  /** The lower end of the window frame k is explored in. */
  function Lo(st: Stack, k: int): int
    requires Shaped(st) && 1 <= k <= AiDepth
  {
    if k == 1 then -Inf else st.frames[k - 1].alpha
  }

  /** The upper end of the window frame k is explored in. */
  function Hi(st: Stack, k: int): int
    requires Shaped(st) && 1 <= k <= AiDepth
  {
    if k == 1 then Inf else st.frames[k - 1].beta
  }

  /** The search's claim about a score from depth d: through d's window, it is d's value. */
  ghost predicate Returns(t: Game, ai: Stone, D: int, st: Stack, d: int, score: int)
    requires Shaped(st) && 1 <= d <= AiDepth
  {
    Clamp(Lo(st, d), Hi(st, d), score) == Clamp(Lo(st, d), Hi(st, d), Value(t, ai, D, st.frames[d].board, d))
  }

  /** An inner node at depth k, explored in the window (lo, hi), whose move
      list is generated and whose first f.idx children have been taken. A
      maximising node keeps beta at hi and raises alpha towards its best
      score; a minimising node keeps alpha at lo and lowers beta. */
  ghost predicate NodeOK(t: Game, ai: Stone, D: int, k: int, lo: int, hi: int, f: Frame)
  {
    k < D && lo < hi &&
    f.moves == t.moves(f.board, ColorAt(ai, k)) &&
    0 <= f.idx <= |f.moves| &&
    Clamp(lo, hi, f.best) == Clamp(lo, hi, Fold(t, ai, D, f.board, k, f.moves, f.idx)) &&
    if k % 2 == 0 then f.beta == hi && lo <= f.alpha < hi && f.alpha <= Clamp(lo, hi, f.best)
    else f.alpha == lo && lo < f.beta <= hi && Clamp(lo, hi, f.best) <= f.beta
  }

  /** Othello(ai) is the game the program searches, and its moves are on the board. */
  lemma OthelloPlays(ai: Stone)
    ensures Plays(Othello(ai), ai) && OnBoard(Othello(ai))
  {
    forall g: Grid, c: Stone, j | 0 <= j < |Othello(ai).moves(g, c)|
      ensures InBoard(Othello(ai).moves(g, c)[j].x, Othello(ai).moves(g, c)[j].y)
    {
      LegalMovesFacts(g, c);
      assert LegalMoves(g, c)[j] in LegalMoves(g, c);
    }
  }

  /** A node with a child on the path: the child is the board of its current move. */
  ghost predicate ParentOK(t: Game, ai: Stone, D: int, k: int, lo: int, hi: int, f: Frame, next: Grid)
  {
    NodeOK(t, ai, D, k, lo, hi, f) && f.idx < |f.moves| &&
    next == t.play(f.board, f.moves[f.idx], ColorAt(ai, k))
  }

  /** The node on top of the path: a leaf at depth D, a node just entered
      (window copied from its parent, no move taken), or a node that has taken
      at least one child. */
  ghost predicate TopOK(t: Game, ai: Stone, D: int, st: Stack)
    requires Shaped(st) && 1 <= st.depth <= AiDepth
  {
    var d := st.depth;
    var f := st.frames[d];
    (d == D && f.idx == 0) ||
    (d < D && f.idx == 0 && f.alpha == Lo(st, d) && f.beta == Hi(st, d) && Lo(st, d) < Hi(st, d)) ||
    (0 < f.idx && NodeOK(t, ai, D, d, Lo(st, d), Hi(st, d), f))
  }

  /** The loop invariant of the search below root board b0's move with child b1. */
  ghost predicate StackOK(t: Game, ai: Stone, D: int, b1: Grid, st: Stack)
  {
    Shaped(st) && 1 <= D <= AiDepth && 1 <= st.depth <= D && st.frames[1].board == b1 &&
    (forall k | 1 <= k < st.depth :: ParentOK(t, ai, D, k, Lo(st, k), Hi(st, k), st.frames[k], st.frames[k + 1].board)) &&
    TopOK(t, ai, D, st)
  }

  // ---------------------------------------------------------------------------
  // The steps of the loop

  /** First visit of an inner node: its moves are listed and its best score
      starts at -INF (maximising) or INF (minimising). */
  function Open(st: Stack, ms: seq<Pos>): (r: Stack)
    requires Shaped(st) && 0 <= st.depth <= AiDepth
    ensures Shaped(r) && r.depth == st.depth
    ensures r.frames[st.depth] == st.frames[st.depth].(moves := r.frames[st.depth].moves, best := r.frames[st.depth].best)
    ensures r.frames[st.depth].moves == ms
    ensures forall k | 0 <= k <= AiDepth && k != st.depth :: r.frames[k] == st.frames[k]
  {
    var d := st.depth;
    st.(frames := st.frames[d := st.frames[d].(moves := ms, best := if d % 2 == 0 then -Inf else Inf)])
  }

  /** Moving to the child board: it inherits its parent's alpha and beta and starts at its first move. */
  function Descend(st: Stack, child: Grid): (r: Stack)
    requires Shaped(st) && 0 <= st.depth < AiDepth
    ensures Shaped(r) && r.depth == st.depth + 1
    ensures r.frames[r.depth].board == child && r.frames[r.depth].idx == 0
    ensures r.frames[r.depth].alpha == st.frames[st.depth].alpha && r.frames[r.depth].beta == st.frames[st.depth].beta
    ensures forall k | 0 <= k <= AiDepth && k != st.depth + 1 :: r.frames[k] == st.frames[k]
  {
    var d := st.depth;
    var f := st.frames[d + 1].(alpha := st.frames[d].alpha, beta := st.frames[d].beta, idx := 0, board := child);
    Stack(d + 1, st.frames[d + 1 := f])
  }

  /** Whether a node of depth p stops exploring after raising (lowering) its best score to nb. */
  function Cuts(p: int, f: Frame, nb: int): bool
  {
    if p % 2 == 0 then nb >= f.beta else nb <= f.alpha
  }

  /** The top node returns score, as a leaf or after its last move: the parent
      takes it, then either cuts (and is dropped itself, its own parent moving
      on) or narrows its window and moves on. Returns the new stack and the
      new value of the score variable. */
  function Return(st: Stack, score: int): (r: (Stack, int))
    requires Shaped(st) && 1 <= st.depth <= AiDepth
    ensures Shaped(r.0) && 0 <= r.0.depth < st.depth && st.depth - 2 <= r.0.depth
    ensures r.0.depth == st.depth - 1 ==> r.1 == score
    ensures forall k | 0 <= k <= AiDepth ::
      r.0.frames[k].board == st.frames[k].board && r.0.frames[k].moves == st.frames[k].moves
  {
    var p := st.depth - 1;
    if p == 0 then (st.(depth := 0), score)
    else
      var f := st.frames[p];
      var nb := Better(p, f.best, score);
      if Cuts(p, f, nb) then
        var fs := st.frames[p := f.(best := nb)];
        if p - 1 > 0 then (Stack(p - 1, fs[p - 1 := fs[p - 1].(idx := fs[p - 1].idx + 1)]), nb)
        else (Stack(0, fs), nb)
      else
        var g := if p % 2 == 0 then f.(best := nb, alpha := if nb > f.alpha then nb else f.alpha, idx := f.idx + 1)
                 else f.(best := nb, beta := if nb < f.beta then nb else f.beta, idx := f.idx + 1);
        (Stack(p, st.frames[p := g]), score)
  }

  /** A node without moves returns its static score: the parent takes it with
      neither a cut test nor a window update, and moves on. */
  function Pass(st: Stack, score: int): (r: Stack)
    requires Shaped(st) && 1 <= st.depth <= AiDepth
    ensures Shaped(r) && r.depth == st.depth - 1
    ensures forall k | 0 <= k <= AiDepth ::
      r.frames[k].board == st.frames[k].board && r.frames[k].moves == st.frames[k].moves
  {
    var p := st.depth - 1;
    if p == 0 then st.(depth := 0)
    else
      var f := st.frames[p];
      Stack(p, st.frames[p := f.(best := Better(p, f.best, score), idx := f.idx + 1)])
  }

  /** The loop's progress at depth k: 66 below the path, 65 for a node just
      entered, otherwise the number of move slots it has not yet passed. */
  function Rank(st: Stack, k: int): nat
    requires Shaped(st) && 1 <= k <= AiDepth
  {
    if k > st.depth then 66
    else if k == st.depth && st.frames[k].idx == 0 then 65
    else MaxMoves - Clamp(0, MaxMoves, st.frames[k].idx)
  }

  /** The loop's termination order: reaching depth 0 ends it; otherwise the
      ranks of depths 1, 2 and 3 decrease lexicographically. */
  predicate Lex(a: Stack, b: Stack)
    requires Shaped(a) && Shaped(b)
  {
    var ta, tb := if a.depth > 0 then 1 else 0, if b.depth > 0 then 1 else 0;
    ta < tb || (ta == tb &&
      (Rank(a, 1) < Rank(b, 1) || (Rank(a, 1) == Rank(b, 1) &&
      (Rank(a, 2) < Rank(b, 2) || (Rank(a, 2) == Rank(b, 2) && Rank(a, 3) < Rank(b, 3))))))
  }

  // ---------------------------------------------------------------------------
  // Window arithmetic

  lemma ClampMonotone(lo: int, hi: int, x: int, y: int)
    requires lo <= hi && x <= y
    ensures Clamp(lo, hi, x) <= Clamp(lo, hi, y)
  {
  }

  /** A maximising node: taking a child's score known through (a, hi) keeps
      the best score equal, through (lo, hi), to the fold. */
  lemma AbsorbMax(lo: int, hi: int, a: int, x: int, f: int, s: int, v: int)
    requires lo <= a < hi && a <= Clamp(lo, hi, x)
    requires Clamp(lo, hi, x) == Clamp(lo, hi, f)
    requires Clamp(a, hi, s) == Clamp(a, hi, v)
    ensures Clamp(lo, hi, Max(x, s)) == Clamp(lo, hi, Max(f, v))
  {
  }

  lemma AbsorbMin(lo: int, hi: int, b: int, x: int, f: int, s: int, v: int)
    requires lo < b <= hi && Clamp(lo, hi, x) <= b
    requires Clamp(lo, hi, x) == Clamp(lo, hi, f)
    requires Clamp(lo, b, s) == Clamp(lo, b, v)
    ensures Clamp(lo, hi, Min(x, s)) == Clamp(lo, hi, Min(f, v))
  {
  }

  // ---------------------------------------------------------------------------
  // The invariant is kept by every step

  /** Frames below depth n and the board at n are untouched, so the parents below n stay valid. */
  lemma ParentsKept(t: Game, ai: Stone, D: int, st: Stack, st': Stack, n: int)
    requires Shaped(st) && Shaped(st') && 1 <= n <= AiDepth
    requires forall k | 1 <= k < n :: ParentOK(t, ai, D, k, Lo(st, k), Hi(st, k), st.frames[k], st.frames[k + 1].board)
    requires forall k | 0 <= k < n :: st'.frames[k] == st.frames[k]
    requires st'.frames[n].board == st.frames[n].board
    ensures forall k | 1 <= k < n :: ParentOK(t, ai, D, k, Lo(st', k), Hi(st', k), st'.frames[k], st'.frames[k + 1].board)
  {
    forall k | 1 <= k < n
      ensures ParentOK(t, ai, D, k, Lo(st', k), Hi(st', k), st'.frames[k], st'.frames[k + 1].board)
    {
      assert Lo(st', k) == Lo(st, k) && Hi(st', k) == Hi(st, k);
      assert st'.frames[k + 1].board == st.frames[k + 1].board;
    }
  }

  /** The search of one root move starts at depth 1, board b1, with the window (-INF, INF). */
  lemma StartOK(t: Game, ai: Stone, D: int, b1: Grid, st: Stack)
    requires Shaped(st) && 1 <= D <= AiDepth && st.depth == 1
    requires st.frames[1].alpha == -Inf && st.frames[1].beta == Inf && st.frames[1].idx == 0 && st.frames[1].board == b1
    ensures StackOK(t, ai, D, b1, st)
  {
  }

  /** A leaf's static score is its value. */
  lemma LeafReturns(t: Game, ai: Stone, D: int, b1: Grid, st: Stack)
    requires StackOK(t, ai, D, b1, st) && st.depth == D
    ensures Returns(t, ai, D, st, D, t.score(st.frames[D].board))
  {
  }

  /** A node that has taken all of its (at least one) children returns its best score. */
  lemma DoneReturns(t: Game, ai: Stone, D: int, b1: Grid, st: Stack)
    requires StackOK(t, ai, D, b1, st) && st.depth < D
    requires 0 < st.frames[st.depth].idx && |st.frames[st.depth].moves| <= st.frames[st.depth].idx
    ensures Returns(t, ai, D, st, st.depth, st.frames[st.depth].best)
  {
  }

  /** The first visit of a node that has moves, followed by the move to its first child. */
  lemma OpenOK(t: Game, ai: Stone, D: int, b1: Grid, st: Stack, ms: seq<Pos>)
    requires StackOK(t, ai, D, b1, st) && st.depth < D && st.frames[st.depth].idx == 0
    requires ms == t.moves(st.frames[st.depth].board, ColorAt(ai, st.depth)) && |ms| > 0
    ensures var st' := Open(st, ms);
      StackOK(t, ai, D, b1, st') && 0 < |st'.frames[st'.depth].moves| &&
      NodeOK(t, ai, D, st'.depth, Lo(st', st'.depth), Hi(st', st'.depth), st'.frames[st'.depth])
  {
    var st' := Open(st, ms);
    var d := st.depth;
    ParentsKept(t, ai, D, st, st', d);
    assert Lo(st', d) == Lo(st, d) && Hi(st', d) == Hi(st, d);
  }

  /** Moving to the child of the current move keeps the invariant. */
  lemma DescendOK(t: Game, ai: Stone, D: int, b1: Grid, st: Stack)
    requires StackOK(t, ai, D, b1, st) && st.depth < D
    requires NodeOK(t, ai, D, st.depth, Lo(st, st.depth), Hi(st, st.depth), st.frames[st.depth])
    requires st.frames[st.depth].idx < |st.frames[st.depth].moves|
    ensures var f := st.frames[st.depth];
      StackOK(t, ai, D, b1, Descend(st, t.play(f.board, f.moves[f.idx], ColorAt(ai, st.depth))))
  {
    var d := st.depth;
    var f := st.frames[d];
    var st' := Descend(st, t.play(f.board, f.moves[f.idx], ColorAt(ai, d)));
    ParentsKept(t, ai, D, st, st', d);
    assert Lo(st', d) == Lo(st, d) && Hi(st', d) == Hi(st, d);
    assert Lo(st', d + 1) == f.alpha && Hi(st', d + 1) == f.beta;
  }

  /** The value of the child on the path is the value the parent's fold takes next. */
  lemma ChildOnPath(t: Game, ai: Stone, D: int, k: int, lo: int, hi: int, f: Frame, next: Grid)
    requires ParentOK(t, ai, D, k, lo, hi, f, next)
    ensures Value(t, ai, D, next, k + 1) == ChildValue(t, ai, D, f.board, k, f.moves, f.idx)
  {
  }

  /** At depth 1 the window is (-INF, INF), so the returned score is exact. */
  lemma RootReturns(t: Game, ai: Stone, D: int, b1: Grid, st: Stack, score: int)
    requires Bounded(t) && StackOK(t, ai, D, b1, st) && st.depth == 1
    requires Returns(t, ai, D, st, 1, score)
    ensures score == Value(t, ai, D, b1, 1)
  {
    ValueBounds(t, ai, D, b1, 1);
  }

  /** A parent at depth p that takes score from its child and does not cut:
      the taken child is counted in its fold and the window shrinks soundly. */
  lemma TakeOK(t: Game, ai: Stone, D: int, p: int, lo: int, hi: int, f: Frame, next: Grid, score: int)
    requires ParentOK(t, ai, D, p, lo, hi, f, next)
    requires Clamp(f.alpha, f.beta, score) == Clamp(f.alpha, f.beta, Value(t, ai, D, next, p + 1))
    ensures var nb := Better(p, f.best, score);
      Clamp(lo, hi, nb) == Clamp(lo, hi, Fold(t, ai, D, f.board, p, f.moves, f.idx + 1))
  {
    ChildOnPath(t, ai, D, p, lo, hi, f, next);
    if p % 2 == 0 {
      AbsorbMax(lo, hi, f.alpha, f.best, Fold(t, ai, D, f.board, p, f.moves, f.idx), score, Value(t, ai, D, next, p + 1));
    } else {
      AbsorbMin(lo, hi, f.beta, f.best, Fold(t, ai, D, f.board, p, f.moves, f.idx), score, Value(t, ai, D, next, p + 1));
    }
  }

  /** After a take without a cut, the parent is a valid top node again. */
  lemma NoCutOK(t: Game, ai: Stone, D: int, p: int, lo: int, hi: int, f: Frame, next: Grid, score: int)
    requires ParentOK(t, ai, D, p, lo, hi, f, next)
    requires Clamp(f.alpha, f.beta, score) == Clamp(f.alpha, f.beta, Value(t, ai, D, next, p + 1))
    requires !Cuts(p, f, Better(p, f.best, score))
    ensures var nb := Better(p, f.best, score);
      var g := if p % 2 == 0 then f.(best := nb, alpha := if nb > f.alpha then nb else f.alpha, idx := f.idx + 1)
               else f.(best := nb, beta := if nb < f.beta then nb else f.beta, idx := f.idx + 1);
      NodeOK(t, ai, D, p, lo, hi, g)
  {
    TakeOK(t, ai, D, p, lo, hi, f, next, score);
    var nb := Better(p, f.best, score);
    if p % 2 == 0 {
      ClampMonotone(lo, hi, f.best, nb);
    } else {
      ClampMonotone(lo, hi, nb, f.best);
    }
  }

  /** A node that cuts has a value beyond its window on the side its parent ignores. */
  lemma CutValue(t: Game, ai: Stone, D: int, p: int, lo: int, hi: int, f: Frame, next: Grid, score: int)
    requires Bounded(t) && ParentOK(t, ai, D, p, lo, hi, f, next)
    requires Clamp(f.alpha, f.beta, score) == Clamp(f.alpha, f.beta, Value(t, ai, D, next, p + 1))
    requires Cuts(p, f, Better(p, f.best, score))
    ensures p % 2 == 0 ==> Value(t, ai, D, f.board, p) >= hi
    ensures p % 2 == 1 ==> Value(t, ai, D, f.board, p) <= lo
  {
    TakeOK(t, ai, D, p, lo, hi, f, next, score);
    FoldMonotone(t, ai, D, f.board, p, f.moves, f.idx + 1, |f.moves|);
  }

  /** A minimising node at depth 1 never cuts: its alpha is -INF, its best score
      and every child score lie above it. */
  lemma NoCutAtOne(t: Game, ai: Stone, D: int, f: Frame, next: Grid, score: int)
    requires Bounded(t) && ParentOK(t, ai, D, 1, -Inf, Inf, f, next)
    requires Clamp(f.alpha, f.beta, score) == Clamp(f.alpha, f.beta, Value(t, ai, D, next, 2))
    ensures !Cuts(1, f, Better(1, f.best, score))
  {
    FoldBounds(t, ai, D, f.board, 1, f.moves, f.idx);
    ValueBounds(t, ai, D, next, 2);
  }

  /** The grandparent of a cut node moves on without taking its value: it would not have changed it. */
  lemma SkipOK(t: Game, ai: Stone, D: int, q: int, lo: int, hi: int, f: Frame, next: Grid)
    requires ParentOK(t, ai, D, q, lo, hi, f, next)
    requires q % 2 == 1 ==> Value(t, ai, D, next, q + 1) >= f.beta
    requires q % 2 == 0 ==> Value(t, ai, D, next, q + 1) <= f.alpha
    ensures NodeOK(t, ai, D, q, lo, hi, f.(idx := f.idx + 1))
  {
    ChildOnPath(t, ai, D, q, lo, hi, f, next);
    var v := Value(t, ai, D, next, q + 1);
    if q % 2 == 1 {
      ClampMonotone(lo, hi, f.beta, v);
    } else {
      ClampMonotone(lo, hi, v, f.alpha);
    }
  }

  /** A return to a parent at depth p >= 1 that cuts: the parent is dropped
      and the grandparent moves on to its next move. */
  lemma ReturnCutOK(t: Game, ai: Stone, D: int, b1: Grid, st: Stack, score: int)
    requires Bounded(t) && StackOK(t, ai, D, b1, st) && st.depth >= 2
    requires Returns(t, ai, D, st, st.depth, score)
    requires Cuts(st.depth - 1, st.frames[st.depth - 1], Better(st.depth - 1, st.frames[st.depth - 1].best, score))
    ensures StackOK(t, ai, D, b1, Return(st, score).0)
  {
    var p := st.depth - 1;
    var f := st.frames[p];
    var nb := Better(p, f.best, score);
    CutSkips(t, ai, D, b1, st, score);
    var q := p - 1;
    var fs := st.frames[p := f.(best := nb)];
    var st' := Stack(q, fs[q := fs[q].(idx := fs[q].idx + 1)]);
    ParentsKept(t, ai, D, st, st', q);
    assert Lo(st', q) == Lo(st, q) && Hi(st', q) == Hi(st, q);
    assert Return(st, score).0 == st';
  }

  /** The value half of a cut: the grandparent may skip the cut node's move. */
  lemma CutSkips(t: Game, ai: Stone, D: int, b1: Grid, st: Stack, score: int)
    requires Bounded(t) && StackOK(t, ai, D, b1, st) && st.depth >= 2
    requires Returns(t, ai, D, st, st.depth, score)
    requires Cuts(st.depth - 1, st.frames[st.depth - 1], Better(st.depth - 1, st.frames[st.depth - 1].best, score))
    ensures st.depth >= 3
    ensures var q := st.depth - 2;
      st.depth >= 3 && NodeOK(t, ai, D, q, Lo(st, q), Hi(st, q), st.frames[q].(idx := st.frames[q].idx + 1))
  {
    var p := st.depth - 1;
    var f := st.frames[p];
    var next := st.frames[p + 1].board;
    assert ParentOK(t, ai, D, p, Lo(st, p), Hi(st, p), f, next);
    assert Lo(st, p + 1) == f.alpha && Hi(st, p + 1) == f.beta;
    if p == 1 {
      NoCutAtOne(t, ai, D, f, next, score);
    }
    CutValue(t, ai, D, p, Lo(st, p), Hi(st, p), f, next, score);
    var q := p - 1;
    assert ParentOK(t, ai, D, q, Lo(st, q), Hi(st, q), st.frames[q], st.frames[p].board);
    SkipOK(t, ai, D, q, Lo(st, q), Hi(st, q), st.frames[q], st.frames[p].board);
  }

  /** A return to a parent at depth p >= 1 that does not cut: the parent
      narrows its window and moves on. */
  lemma ReturnTakeOK(t: Game, ai: Stone, D: int, b1: Grid, st: Stack, score: int)
    requires Bounded(t) && StackOK(t, ai, D, b1, st) && st.depth >= 2
    requires Returns(t, ai, D, st, st.depth, score)
    requires !Cuts(st.depth - 1, st.frames[st.depth - 1], Better(st.depth - 1, st.frames[st.depth - 1].best, score))
    ensures StackOK(t, ai, D, b1, Return(st, score).0)
  {
    var p := st.depth - 1;
    var f := st.frames[p];
    var next := st.frames[p + 1].board;
    assert ParentOK(t, ai, D, p, Lo(st, p), Hi(st, p), f, next);
    assert Lo(st, p + 1) == f.alpha && Hi(st, p + 1) == f.beta;
    NoCutOK(t, ai, D, p, Lo(st, p), Hi(st, p), f, next, score);
    var st' := Return(st, score).0;
    ParentsKept(t, ai, D, st, st', p);
    assert Lo(st', p) == Lo(st, p) && Hi(st', p) == Hi(st, p);
  }

  /** Returning a score from the top node keeps the invariant, and a return to
      depth 0 carries the exact value of the root move's child. */
  lemma ReturnOK(t: Game, ai: Stone, D: int, b1: Grid, st: Stack, score: int)
    requires Bounded(t) && StackOK(t, ai, D, b1, st)
    requires Returns(t, ai, D, st, st.depth, score)
    ensures var (st', s) := Return(st, score);
      if st'.depth == 0 then s == Value(t, ai, D, b1, 1) else StackOK(t, ai, D, b1, st')
  {
    if st.depth == 1 {
      RootReturns(t, ai, D, b1, st, score);
    } else if Cuts(st.depth - 1, st.frames[st.depth - 1], Better(st.depth - 1, st.frames[st.depth - 1].best, score)) {
      ReturnCutOK(t, ai, D, b1, st, score);
    } else {
      ReturnTakeOK(t, ai, D, b1, st, score);
    }
  }

  /** Passing (no move at a non-leaf node) keeps the invariant: the static
      score is the node's exact value. */
  lemma PassOK(t: Game, ai: Stone, D: int, b1: Grid, st: Stack)
    requires Bounded(t) && StackOK(t, ai, D, b1, st) && st.depth < D
    requires |t.moves(st.frames[st.depth].board, ColorAt(ai, st.depth))| == 0
    ensures var score := t.score(st.frames[st.depth].board);
      var st' := Pass(st, score);
      if st'.depth == 0 then score == Value(t, ai, D, b1, 1) else StackOK(t, ai, D, b1, st')
  {
    var p := st.depth - 1;
    var score := t.score(st.frames[st.depth].board);
    assert score == Value(t, ai, D, st.frames[st.depth].board, st.depth);
    if p > 0 {
      var f := st.frames[p];
      var next := st.frames[p + 1].board;
      assert ParentOK(t, ai, D, p, Lo(st, p), Hi(st, p), f, next);
      var lo, hi := Lo(st, p), Hi(st, p);
      ChildOnPath(t, ai, D, p, lo, hi, f, next);
      var nb := Better(p, f.best, score);
      if p % 2 == 0 {
        ClampMonotone(lo, hi, f.best, nb);
      } else {
        ClampMonotone(lo, hi, nb, f.best);
      }
      var st' := Pass(st, score);
      ParentsKept(t, ai, D, st, st', p);
      assert Lo(st', p) == lo && Hi(st', p) == hi;
    }
  }

  /** Returning and passing keep every frame's board and move list, and leave the path shorter. */
  lemma ReturnKeeps(st: Stack, score: int)
    requires Shaped(st) && 1 <= st.depth <= AiDepth
    ensures var st' := Return(st, score).0;
      Shaped(st') && 0 <= st'.depth < st.depth &&
      forall k | 0 <= k <= AiDepth :: st'.frames[k].board == st.frames[k].board && st'.frames[k].moves == st.frames[k].moves
  {
  }

  lemma PassKeeps(st: Stack, score: int)
    requires Shaped(st) && 1 <= st.depth <= AiDepth
    ensures var st' := Pass(st, score);
      Shaped(st') && 0 <= st'.depth < st.depth &&
      forall k | 0 <= k <= AiDepth :: st'.frames[k].board == st.frames[k].board && st'.frames[k].moves == st.frames[k].moves
  {
  }

  // ---------------------------------------------------------------------------
  // Every step brings the loop closer to its end

  /** The move lists of Othello fit the buffers. */
  lemma OthelloFits(ai: Stone)
    ensures FitsBuffer(Othello(ai))
  {
    forall g: Grid, c: Stone
      ensures |Othello(ai).moves(g, c)| <= MaxMoves
    {
      LegalMovesBound(g, c);
    }
  }

  /** A node with a child on the path has moves left, so its rank lies below 64. */
  lemma ParentRank(t: Game, ai: Stone, D: int, b1: Grid, st: Stack, k: int)
    requires FitsBuffer(t) && StackOK(t, ai, D, b1, st) && 1 <= k < st.depth
    ensures 0 <= st.frames[k].idx < MaxMoves
  {
    assert ParentOK(t, ai, D, k, Lo(st, k), Hi(st, k), st.frames[k], st.frames[k + 1].board);
  }

  lemma ReturnRanks(t: Game, ai: Stone, D: int, b1: Grid, st: Stack, score: int)
    requires FitsBuffer(t) && StackOK(t, ai, D, b1, st)
    ensures Lex(Return(st, score).0, st)
  {
    var p := st.depth - 1;
    if p > 0 {
      ParentRank(t, ai, D, b1, st, p);
      if p > 1 {
        ParentRank(t, ai, D, b1, st, p - 1);
      }
    }
  }

  lemma PassRanks(t: Game, ai: Stone, D: int, b1: Grid, st: Stack, score: int)
    requires FitsBuffer(t) && StackOK(t, ai, D, b1, st)
    ensures Lex(Pass(st, score), st)
  {
    if st.depth > 1 {
      ParentRank(t, ai, D, b1, st, st.depth - 1);
    }
  }

  lemma OpenRanks(st: Stack, ms: seq<Pos>)
    requires Shaped(st) && 1 <= st.depth <= AiDepth
    ensures forall k | 1 <= k <= AiDepth :: Rank(Open(st, ms), k) == Rank(st, k)
  {
  }

  lemma DescendRanks(t: Game, ai: Stone, D: int, b1: Grid, st: Stack, child: Grid)
    requires FitsBuffer(t) && StackOK(t, ai, D, b1, st) && st.depth < D
    requires NodeOK(t, ai, D, st.depth, Lo(st, st.depth), Hi(st, st.depth), st.frames[st.depth])
    requires st.frames[st.depth].idx < |st.frames[st.depth].moves|
    ensures Lex(Descend(st, child), st)
  {
  }

  // ---------------------------------------------------------------------------
  // The steps of the loop, each with everything the loop needs to know

  /** What a return or a pass leaves: a shorter path with the same boards and
      move lists, closer to the end of the loop. */
  ghost predicate Kept(st: Stack, st': Stack)
    requires Shaped(st)
  {
    Shaped(st') && 0 <= st'.depth < st.depth && Lex(st', st) &&
    forall k | 0 <= k <= AiDepth :: st'.frames[k].board == st.frames[k].board && st'.frames[k].moves == st.frames[k].moves
  }

  /** After a return: either the search of the root move is over and s is
      the exact value of its child b1, or the path again satisfies StackOK. */
  ghost predicate Returned(t: Game, ai: Stone, D: int, b1: Grid, st': Stack, s: int)
  {
    if st'.depth == 0 then s == Value(t, ai, D, b1, 1) else StackOK(t, ai, D, b1, st')
  }

  /** A leaf returns its static score. */
  lemma LeafStepOK(t: Game, ai: Stone, D: int, b1: Grid, st: Stack, score: int)
    requires Bounded(t) && FitsBuffer(t) && StackOK(t, ai, D, b1, st) && st.depth == D
    requires score == t.score(st.frames[D].board)
    ensures Kept(st, Return(st, score).0) && Returned(t, ai, D, b1, Return(st, score).0, Return(st, score).1)
  {
    LeafReturns(t, ai, D, b1, st);
    ReturnOK(t, ai, D, b1, st, score);
    ReturnRanks(t, ai, D, b1, st, score);
    ReturnKeeps(st, score);
  }

  /** A node that has taken all its children returns its best score. */
  lemma DoneStepOK(t: Game, ai: Stone, D: int, b1: Grid, st: Stack)
    requires Bounded(t) && FitsBuffer(t) && StackOK(t, ai, D, b1, st) && st.depth < D
    requires 0 < st.frames[st.depth].idx && |st.frames[st.depth].moves| <= st.frames[st.depth].idx
    ensures var score := st.frames[st.depth].best;
      Kept(st, Return(st, score).0) && Returned(t, ai, D, b1, Return(st, score).0, Return(st, score).1)
  {
    var score := st.frames[st.depth].best;
    DoneReturns(t, ai, D, b1, st);
    ReturnOK(t, ai, D, b1, st, score);
    ReturnRanks(t, ai, D, b1, st, score);
    ReturnKeeps(st, score);
  }

  /** A node without a move passes its static score up. */
  lemma PassStepOK(t: Game, ai: Stone, D: int, b1: Grid, st: Stack, score: int)
    requires Bounded(t) && FitsBuffer(t) && StackOK(t, ai, D, b1, st) && st.depth < D
    requires |t.moves(st.frames[st.depth].board, ColorAt(ai, st.depth))| == 0
    requires score == t.score(st.frames[st.depth].board)
    ensures Kept(st, Pass(st, score)) && Returned(t, ai, D, b1, Pass(st, score), score)
  {
    PassOK(t, ai, D, b1, st);
    PassRanks(t, ai, D, b1, st, score);
    PassKeeps(st, score);
  }

  /** A node with moves is opened without changing the loop's progress. */
  lemma OpenStepOK(t: Game, ai: Stone, D: int, b1: Grid, st: Stack, ms: seq<Pos>)
    requires StackOK(t, ai, D, b1, st) && st.depth < D && st.frames[st.depth].idx == 0
    requires ms == t.moves(st.frames[st.depth].board, ColorAt(ai, st.depth)) && |ms| > 0
    ensures var st' := Open(st, ms);
      StackOK(t, ai, D, b1, st') && st'.depth == st.depth &&
      NodeOK(t, ai, D, st'.depth, Lo(st', st'.depth), Hi(st', st'.depth), st'.frames[st'.depth]) &&
      (forall k | 0 <= k <= AiDepth :: st'.frames[k].board == st.frames[k].board) &&
      (forall k | 0 <= k <= AiDepth && k != st.depth :: st'.frames[k].moves == st.frames[k].moves) &&
      st'.frames[st.depth].moves == ms && st'.frames[st.depth].idx == 0 &&
      forall k | 1 <= k <= AiDepth :: Rank(st', k) == Rank(st, k)
  {
    OpenOK(t, ai, D, b1, st, ms);
    OpenRanks(st, ms);
  }

  /** The move to the child of the top node's current move. */
  lemma DescendStepOK(t: Game, ai: Stone, D: int, b1: Grid, st: Stack)
    requires FitsBuffer(t) && StackOK(t, ai, D, b1, st) && st.depth < D
    requires NodeOK(t, ai, D, st.depth, Lo(st, st.depth), Hi(st, st.depth), st.frames[st.depth])
    requires st.frames[st.depth].idx < |st.frames[st.depth].moves|
    ensures var f := st.frames[st.depth];
      var st' := Descend(st, t.play(f.board, f.moves[f.idx], ColorAt(ai, st.depth)));
      StackOK(t, ai, D, b1, st') && Lex(st', st) && st'.depth == st.depth + 1 &&
      (forall k | 0 <= k <= st.depth :: st'.frames[k] == st.frames[k]) &&
      st'.frames[st'.depth].idx == 0
  {
    var f := st.frames[st.depth];
    DescendOK(t, ai, D, b1, st);
    DescendRanks(t, ai, D, b1, st, t.play(f.board, f.moves[f.idx], ColorAt(ai, st.depth)));
  }
}
