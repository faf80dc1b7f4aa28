/** The solver of benchmark/single-source/Hanoi.swift, legality of its moves, and their optimality. */
module TowersOfHanoiPuzzle {
  import opened Options
  import opened Powers

  datatype Move = Move(from: string, to: string)

  /** The disks on each peg, from the bottom up. Disks are numbered by size. */
  type Pegs = map<string, seq<nat>>

  // ---- the rules

  predicate CanTake(disks: seq<nat>, disk: nat) {
    disks == [] || disk < disks[|disks| - 1]
  }

  /** A move takes the top disk of a peg to another peg that is empty or has a larger disk on top. */
  predicate Legal(pegs: Pegs, move: Move) {
    && move.from in pegs && move.to in pegs && move.from != move.to
    && pegs[move.from] != []
    && CanTake(pegs[move.to], Moved(pegs, move))
  }

  function Moved(pegs: Pegs, move: Move): nat
    requires move.from in pegs && pegs[move.from] != []
  {
    pegs[move.from][|pegs[move.from]| - 1]
  }

  function After(pegs: Pegs, move: Move): Pegs
    requires Legal(pegs, move)
  {
    var source := pegs[move.from];
    pegs[move.from := source[..|source| - 1]][move.to := pegs[move.to] + [Moved(pegs, move)]]
  }

  /** The pegs after a sequence of moves, if all of them are legal. */
  function Play(pegs: Pegs, moves: seq<Move>): Option<Pegs> {
    if moves == [] then Some(pegs)
    else
      var before, move := Play(pegs, moves[..|moves| - 1]), moves[|moves| - 1];
      if before.Some? && Legal(before.value, move) then Some(After(before.value, move)) else None
  }

  lemma {:induction false} PlayConcat(pegs: Pegs, a: seq<Move>, b: seq<Move>)
    ensures Play(pegs, a + b) == if Play(pegs, a).Some? then Play(Play(pegs, a).value, b) else None
  {
    if b == [] {
      assert a + b == a;
    } else {
      PlayConcat(pegs, a, b[..|b| - 1]);
      assert (a + b)[..|a + b| - 1] == a + b[..|b| - 1];
    }
  }

  // ---- the solver

  /** The moves `solve` appends. */
  function Solution(n: nat, start: string, auxiliary: string, end: string): seq<Move> {
    if n == 0 then []
    else Solution(n - 1, start, end, auxiliary) + [Move(start, end)] + Solution(n - 1, auxiliary, start, end)
  }

  class TowersOfHanoi {
    var moves: seq<Move>

    constructor ()
      ensures moves == []
    {
      moves := [];
    }

    method Solve(n: nat, start: string, auxiliary: string, end: string)
      requires n >= 1
      modifies this
      ensures moves == old(moves) + Solution(n, start, auxiliary, end)
    {
      if n == 1 {
        moves := moves + [Move(start, end)];
      } else {
        Solve(n - 1, start, end, auxiliary);
        moves := moves + [Move(start, end)];
        Solve(n - 1, auxiliary, start, end);
      }
    }
  }

  // ---- its moves are legal and transfer the tower

  /** Disks `n` to 1, the largest at the bottom. */
  function Tower(n: nat): seq<nat> {
    if n == 0 then [] else [n] + Tower(n - 1)
  }

  /** A peg that takes any disk up to `n`: whatever lies on it is larger. */
  predicate Takes(disks: seq<nat>, n: nat) {
    disks == [] || n < disks[|disks| - 1]
  }

  /** Three different pegs, with a tower of `n` disks on top of the first, and only larger disks on top elsewhere. */
  predicate TowerOnTop(pegs: Pegs, base: seq<nat>, n: nat, start: string, auxiliary: string, end: string) {
    && start != auxiliary && auxiliary != end && start != end
    && start in pegs && auxiliary in pegs && end in pegs
    && pegs[start] == base + Tower(n)
    && Takes(base, n) && Takes(pegs[auxiliary], n) && Takes(pegs[end], n)
  }

  /** Between the two recursive calls: disk `n` moves, and the other disks are where the second call expects them. */
  lemma MiddleMove(pegs: Pegs, base: seq<nat>, n: nat, start: string, auxiliary: string, end: string) returns (pegs2: Pegs)
    requires TowerOnTop(pegs, base, n, start, auxiliary, end) && n > 0
    ensures TowerOnTop(pegs, base + [n], n - 1, start, end, auxiliary)
    ensures Play(pegs[start := base + [n]][auxiliary := pegs[auxiliary] + Tower(n - 1)], [Move(start, end)]) == Some(pegs2)
    ensures TowerOnTop(pegs2, pegs[auxiliary], n - 1, auxiliary, start, end)
    ensures pegs2[auxiliary := pegs[auxiliary]][end := pegs2[end] + Tower(n - 1)]
            == pegs[start := base][end := pegs[end] + Tower(n)]
  {
    hide Tower, Play, Legal, After;
    var t := Tower(n - 1);
    LargestApart(base, n);
    LargestApart(pegs[end], n);
    var pegs1 := pegs[start := base + [n]][auxiliary := pegs[auxiliary] + t];
    OneMove(pegs1, Move(start, end), base, n);
    pegs2 := pegs1[start := base][end := pegs[end] + [n]];
    Overwritten(pegs, start, auxiliary, end, base + [n], pegs[auxiliary] + t, base, pegs[end] + [n], pegs[end] + Tower(n));
  }

  lemma LargestApart(base: seq<nat>, n: nat)
    requires n > 0
    ensures base + Tower(n) == base + [n] + Tower(n - 1)
  {
  }

  lemma Overwritten(pegs: Pegs, a: string, b: string, c: string,
                    a1: seq<nat>, b1: seq<nat>, a2: seq<nat>, c1: seq<nat>, c2: seq<nat>)
    requires a in pegs && b in pegs && c in pegs && a != b && b != c && a != c
    ensures pegs[a := a1][b := b1][a := a2][c := c1][b := pegs[b]][c := c2] == pegs[a := a2][c := c2]
  {
  }

  lemma OneMove(pegs: Pegs, m: Move, base: seq<nat>, n: nat)
    requires m.from in pegs && m.to in pegs && m.from != m.to
    requires pegs[m.from] == base + [n] && Takes(pegs[m.to], n)
    ensures Play(pegs, [m]) == Some(pegs[m.from := base][m.to := pegs[m.to] + [n]])
  {
    assert [m][..0] == [];
    assert Legal(pegs, m) && Moved(pegs, m) == n;
    assert pegs[m.from][..|pegs[m.from]| - 1] == base;
  }

  /** The solution is legal, takes `2^n - 1` moves, and transfers the tower, whatever lies beneath. */
  lemma {:induction false} SolutionTransfers(pegs: Pegs, base: seq<nat>, n: nat, start: string, auxiliary: string, end: string)
    requires TowerOnTop(pegs, base, n, start, auxiliary, end)
    ensures Play(pegs, Solution(n, start, auxiliary, end)) == Some(pegs[start := base][end := pegs[end] + Tower(n)])
    ensures |Solution(n, start, auxiliary, end)| == Pow2(n) - 1
    decreases n
  {
    if n == 0 {
      assert base + Tower(0) == base && pegs[end] + Tower(0) == pegs[end];
      assert pegs[start := base][end := pegs[end]] == pegs;
    } else {
      var a, m, b := Solution(n - 1, start, end, auxiliary), Move(start, end), Solution(n - 1, auxiliary, start, end);
      var pegs2 := MiddleMove(pegs, base, n, start, auxiliary, end);
      SolutionTransfers(pegs, base + [n], n - 1, start, end, auxiliary);
      SolutionTransfers(pegs2, pegs[auxiliary], n - 1, auxiliary, start, end);
      hide TowerOnTop, Play, Tower;
      PlayedInTurn(pegs, a, m, b);
    }
  }

  lemma PlayedInTurn(pegs: Pegs, a: seq<Move>, m: Move, b: seq<Move>)
    requires Play(pegs, a).Some? && Play(Play(pegs, a).value, [m]).Some?
    ensures Play(pegs, a + [m] + b) == Play(Play(Play(pegs, a).value, [m]).value, b)
  {
    hide Play;
    PlayConcat(pegs, a, [m]);
    PlayConcat(pegs, a + [m], b);
  }

  // ---- and no legal sequence of moves is shorter

  /** On every peg the disks get smaller from the bottom up. */
  ghost predicate Stacked(pegs: Pegs) {
    forall p, i, j :: p in pegs && 0 <= i < j < |pegs[p]| ==> pegs[p][i] > pegs[p][j]
  }

  /** Disks 1 to `n` all lie on `peg`. */
  ghost predicate AllOn(pegs: Pegs, peg: string, n: nat) {
    peg in pegs && forall d: nat :: 1 <= d <= n ==> d in pegs[peg]
  }

  ghost predicate On(pegs: Pegs, peg: string, disk: nat) {
    peg in pegs && disk in pegs[peg]
  }

  ghost predicate OnSome(pegs: Pegs, disk: nat) {
    exists p :: On(pegs, p, disk)
  }

  /** Each of the disks 1 to `n` lies on some peg, and on one only. */
  ghost predicate Placed(pegs: Pegs, n: nat) {
    && (forall d: nat :: 1 <= d <= n ==> OnSome(pegs, d))
    && (forall d: nat, p, q :: 1 <= d <= n && On(pegs, p, d) && On(pegs, q, d) ==> p == q)
  }

  lemma MoveKeepsStacked(pegs: Pegs, move: Move)
    requires Stacked(pegs) && Legal(pegs, move)
    ensures Stacked(After(pegs, move)) && After(pegs, move).Keys == pegs.Keys
  {
  }

  lemma MovedDisk(pegs: Pegs, move: Move)
    requires Stacked(pegs) && Legal(pegs, move)
    ensures On(pegs, move.from, Moved(pegs, move)) && On(After(pegs, move), move.to, Moved(pegs, move))
    ensures !On(After(pegs, move), move.from, Moved(pegs, move))
  {
    var source := pegs[move.from];
    assert Moved(pegs, move) !in source[..|source| - 1];
  }

  lemma OtherDisk(pegs: Pegs, move: Move, p: string, d: nat)
    requires Legal(pegs, move) && (d != Moved(pegs, move) || (p != move.from && p != move.to))
    ensures On(After(pegs, move), p, d) <==> On(pegs, p, d)
  {
    var source := pegs[move.from];
    assert source == source[..|source| - 1] + [Moved(pegs, move)];
  }

  lemma MoveEffect(pegs: Pegs, move: Move, n: nat)
    requires Stacked(pegs) && Placed(pegs, n) && Legal(pegs, move)
    ensures Stacked(After(pegs, move)) && After(pegs, move).Keys == pegs.Keys
    ensures forall p, d: nat :: d != Moved(pegs, move) ==> (On(After(pegs, move), p, d) <==> On(pegs, p, d))
    ensures On(pegs, move.from, Moved(pegs, move)) && On(After(pegs, move), move.to, Moved(pegs, move))
    ensures Placed(After(pegs, move), n)
  {
    hide Legal, After, Moved, Stacked, On;
    MoveKeepsStacked(pegs, move);
    MovedDisk(pegs, move);
    var pegs', d0 := After(pegs, move), Moved(pegs, move);
    forall p, d: nat | d != d0 || (p != move.from && p != move.to)
      ensures On(pegs', p, d) <==> On(pegs, p, d)
    {
      OtherDisk(pegs, move, p, d);
    }
    forall d: nat | 1 <= d <= n
      ensures OnSome(pegs', d)
    {
      assert OnSome(pegs, d);
      var p :| On(pegs, p, d);
      assert On(pegs', if d == d0 then move.to else p, d);
    }
  }

  /** When disk `n` moves, all smaller disks are on the third peg, before and after the move. */
  lemma SmallerOnThird(pegs: Pegs, move: Move, n: nat) returns (third: string)
    requires Stacked(pegs) && Placed(pegs, n) && n > 0 && |pegs.Keys| == 3
    requires Legal(pegs, move) && Moved(pegs, move) == n
    ensures third != move.from && third != move.to
    ensures AllOn(pegs, third, n - 1) && AllOn(After(pegs, move), third, n - 1)
  {
    var rest := pegs.Keys - {move.from} - {move.to};
    assert |rest| == 1;
    third :| third in rest;
    assert rest == {third} by {
      assert |rest - {third}| == 0;
    }
    forall d: nat | 1 <= d <= n - 1
      ensures d in pegs[third]
    {
      assert OnSome(pegs, d);
      var p :| On(pegs, p, d);
      var top := |pegs[p]| - 1;
      var i :| 0 <= i <= top && pegs[p][i] == d;
      assert pegs[p][top] <= d;
      assert p in rest;
    }
  }

  ghost predicate Playable(pegs: Pegs, moves: seq<Move>, n: nat) {
    Stacked(pegs) && Placed(pegs, n) && |pegs.Keys| == 3 && Play(pegs, moves).Some?
  }

  lemma {:induction false} PlayKeeps(pegs: Pegs, moves: seq<Move>, n: nat)
    requires Playable(pegs, moves, n)
    ensures Playable(Play(pegs, moves).value, [], n)
  {
    if moves != [] {
      PlayKeeps(pegs, moves[..|moves| - 1], n);
      MoveEffect(Play(pegs, moves[..|moves| - 1]).value, moves[|moves| - 1], n);
    }
  }

  /** A sequence of moves that brings disk `n` from one peg to another starts with moves of other disks,
      and then moves it. */
  lemma {:induction false} FirstMoveOf(pegs: Pegs, moves: seq<Move>, n: nat, start: string) returns (i: nat)
    requires Playable(pegs, moves, n) && n > 0 && On(pegs, start, n) && !On(Play(pegs, moves).value, start, n)
    ensures i < |moves| && Play(pegs, moves[..i]).Some? && On(Play(pegs, moves[..i]).value, start, n)
    ensures Legal(Play(pegs, moves[..i]).value, moves[i]) && Moved(Play(pegs, moves[..i]).value, moves[i]) == n
  {
    var init := moves[..|moves| - 1];
    var last := Play(pegs, init).value;
    if On(last, start, n) {
      i := |moves| - 1;
      PlayKeeps(pegs, init, n);
      MoveEffect(last, moves[i], n);
    } else {
      i := FirstMoveOf(pegs, init, n, start);
      assert init[..i] == moves[..i];
    }
  }

  /** ... and some move of disk `n` takes it where it ends up. */
  lemma {:induction false} LastMoveOf(pegs: Pegs, moves: seq<Move>, n: nat, end: string) returns (j: nat)
    requires Playable(pegs, moves, n) && n > 0 && !On(pegs, end, n) && On(Play(pegs, moves).value, end, n)
    ensures j < |moves| && Play(pegs, moves[..j]).Some?
    ensures Legal(Play(pegs, moves[..j]).value, moves[j]) && Moved(Play(pegs, moves[..j]).value, moves[j]) == n
    ensures moves[j].to == end
  {
    var init := moves[..|moves| - 1];
    var last := Play(pegs, init).value;
    if On(last, end, n) {
      j := LastMoveOf(pegs, init, n, end);
      assert init[..j] == moves[..j];
    } else {
      j := |moves| - 1;
      PlayKeeps(pegs, init, n);
      MoveEffect(last, moves[j], n);
    }
  }

  /** A play is the play of its first moves, a move, and the play of the rest. */
  lemma SplitPlay(pegs: Pegs, moves: seq<Move>, j: nat)
    requires Play(pegs, moves).Some? && j < |moves| && Play(pegs, moves[..j]).Some?
    requires Legal(Play(pegs, moves[..j]).value, moves[j])
    ensures Play(After(Play(pegs, moves[..j]).value, moves[j]), moves[j + 1..]) == Play(pegs, moves)
  {
    assert moves[..j + 1][..j] == moves[..j];
    assert Play(pegs, moves[..j + 1]) == Some(After(Play(pegs, moves[..j]).value, moves[j]));
    hide Play, Legal, After;
    PlayConcat(pegs, moves[..j + 1], moves[j + 1..]);
    assert moves[..j + 1] + moves[j + 1..] == moves;
  }

  /** Around a move of disk `n`: the smaller disks are on the third peg. */
  lemma AroundMove(pegs: Pegs, moves: seq<Move>, n: nat, j: nat) returns (third: string)
    requires Playable(pegs, moves, n) && n > 0 && j < |moves| && Play(pegs, moves[..j]).Some?
    requires Legal(Play(pegs, moves[..j]).value, moves[j]) && Moved(Play(pegs, moves[..j]).value, moves[j]) == n
    ensures third != moves[j].from && third != moves[j].to
    ensures Playable(pegs, moves[..j], n) && Playable(pegs, moves[..j], n - 1) && AllOn(Play(pegs, moves[..j]).value, third, n - 1)
    ensures On(Play(pegs, moves[..j]).value, moves[j].from, n)
    ensures forall p :: On(Play(pegs, moves[..j]).value, p, n) ==> p == moves[j].from
    ensures var after := After(Play(pegs, moves[..j]).value, moves[j]);
            && Playable(after, moves[j + 1..], n - 1) && AllOn(after, third, n - 1)
            && Play(after, moves[j + 1..]) == Play(pegs, moves)
  {
    var there := Play(pegs, moves[..j]).value;
    PlayKeeps(pegs, moves[..j], n);
    third := SmallerOnThird(there, moves[j], n);
    MoveEffect(there, moves[j], n);
    SplitPlay(pegs, moves, j);
  }

  lemma FewerDisks(pegs: Pegs, moves: seq<Move>, n: nat, start: string)
    requires Playable(pegs, moves, n) && n > 0 && AllOn(pegs, start, n)
    ensures Playable(pegs, moves, n - 1) && AllOn(pegs, start, n - 1) && On(pegs, start, n)
  {
  }

  /** Before disk `n` can arrive elsewhere, the smaller disks have to leave `start`. */
  lemma {:induction false} ClearingStart(pegs: Pegs, moves: seq<Move>, n: nat, start: string, apart: string)
    requires Playable(pegs, moves, n) && n > 0 && AllOn(pegs, start, n)
    requires AllOn(Play(pegs, moves).value, apart, n - 1)
    requires apart == start ==> !On(Play(pegs, moves).value, start, n)
    ensures |moves| >= Pow2(n - 1) - 1
    decreases n, 0
  {
    hide Legal, After, Moved, Stacked, Placed, On, AllOn, Play, Playable;
    FewerDisks(pegs, moves, n, start);
    if apart != start {
      NoShorterSolution(pegs, moves, n - 1, start, apart);
    } else {
      var i := FirstMoveOf(pegs, moves, n, start);
      var away := AroundMove(pegs, moves, n, i);
      NoShorterSolution(pegs, moves[..i], n - 1, start, away);
    }
  }

  lemma LargestLeaves(pegs: Pegs, moves: seq<Move>, n: nat, start: string, end: string)
    requires Playable(pegs, moves, n) && n > 0 && start != end
    requires AllOn(pegs, start, n) && AllOn(Play(pegs, moves).value, end, n)
    ensures !On(pegs, end, n) && On(Play(pegs, moves).value, end, n) && AllOn(Play(pegs, moves).value, end, n - 1)
  {
    assert On(pegs, start, n);
  }

  /** Every legal sequence of moves on three pegs that transfers disks 1 to `n` has at least `2^n - 1` moves,
      whatever larger disks there are. */
  lemma {:induction false} NoShorterSolution(pegs: Pegs, moves: seq<Move>, n: nat, start: string, end: string)
    requires Play(pegs, moves).Some? && Playable(pegs, moves, n) && start != end
    requires AllOn(pegs, start, n) && AllOn(Play(pegs, moves).value, end, n)
    ensures |moves| >= Pow2(n) - 1
    decreases n, 1
  {
    hide Legal, After, Moved, Stacked, Placed, On, AllOn, Play, Playable;
    if n > 0 {
      LargestLeaves(pegs, moves, n, start, end);
      var j := LastMoveOf(pegs, moves, n, end);
      var apart := AroundMove(pegs, moves, n, j);
      ClearingStart(pegs, moves[..j], n, start, apart);
      NoShorterSolution(After(Play(pegs, moves[..j]).value, moves[j]), moves[j + 1..], n - 1, apart, end);
    }
  }

  lemma {:induction false} TowerMembers(n: nat, d: nat)
    requires 1 <= d <= n
    ensures d in Tower(n)
  {
    if d < n {
      TowerMembers(n - 1, d);
    }
  }

  /** What `solve` appends is a shortest way to bring the tower to `end`. */
  lemma SolutionIsShortest(pegs: Pegs, base: seq<nat>, n: nat, start: string, auxiliary: string, end: string, other: seq<Move>)
    requires TowerOnTop(pegs, base, n, start, auxiliary, end)
    requires Playable(pegs, other, n) && AllOn(Play(pegs, other).value, end, n)
    ensures Play(pegs, Solution(n, start, auxiliary, end)).Some? && |Solution(n, start, auxiliary, end)| <= |other|
  {
    forall d: nat | 1 <= d <= n
      ensures d in pegs[start]
    {
      TowerMembers(n, d);
    }
    SolutionTransfers(pegs, base, n, start, auxiliary, end);
    NoShorterSolution(pegs, other, n, start, end);
  }

  // ---- the puzzle itself

  function StartPegs(n: nat, start: string, auxiliary: string, end: string): Pegs {
    map[start := Tower(n), auxiliary := [], end := []]
  }

  lemma {:induction false} TowerDisks(n: nat)
    ensures |Tower(n)| == n && forall i :: 0 <= i < n ==> Tower(n)[i] == n - i
  {
    if n > 0 {
      TowerDisks(n - 1);
    }
  }

  lemma StartIsPlayable(n: nat, start: string, auxiliary: string, end: string)
    requires start != auxiliary && auxiliary != end && start != end
    ensures var pegs := StartPegs(n, start, auxiliary, end);
            Stacked(pegs) && Placed(pegs, n) && TowerOnTop(pegs, [], n, start, auxiliary, end)
  {
    TowerDisks(n);
    var pegs := StartPegs(n, start, auxiliary, end);
    forall d: nat | 1 <= d <= n ensures OnSome(pegs, d) {
      TowerMembers(n, d);
      assert On(pegs, start, d);
    }
  }

  /** From all `n` disks on one of three pegs, the solution takes them to another. */
  lemma PuzzleSolved(n: nat, start: string, auxiliary: string, end: string)
    requires start != auxiliary && auxiliary != end && start != end
    ensures Play(StartPegs(n, start, auxiliary, end), Solution(n, start, auxiliary, end))
            == Some(StartPegs(n, end, auxiliary, start))
    ensures |Solution(n, start, auxiliary, end)| == Pow2(n) - 1
  {
    var pegs := StartPegs(n, start, auxiliary, end);
    StartIsPlayable(n, start, auxiliary, end);
    hide TowerOnTop, Stacked, Placed, Play, Tower;
    SolutionTransfers(pegs, [], n, start, auxiliary, end);
    EndPegs(n, start, auxiliary, end);
  }

  lemma EndPegs(n: nat, start: string, auxiliary: string, end: string)
    requires start != auxiliary && auxiliary != end && start != end
    ensures var pegs := StartPegs(n, start, auxiliary, end);
            pegs[start := []][end := pegs[end] + Tower(n)] == StartPegs(n, end, auxiliary, start)
  {
    hide Tower;
    assert [] + Tower(n) == Tower(n);
  }

  /** No legal play with the same outcome is shorter. */
  lemma PuzzleNotShorter(n: nat, start: string, auxiliary: string, end: string, other: seq<Move>)
    requires start != auxiliary && auxiliary != end && start != end
    requires Play(StartPegs(n, start, auxiliary, end), other) == Some(StartPegs(n, end, auxiliary, start))
    ensures |other| >= Pow2(n) - 1
  {
    var pegs := StartPegs(n, start, auxiliary, end);
    StartIsPlayable(n, start, auxiliary, end);
    ThreePegs(start, auxiliary, end, pegs);
    forall d: nat | 1 <= d <= n ensures d in Tower(n) {
      TowerMembers(n, d);
    }
    hide Stacked, Placed, Play, Tower, TowerOnTop;
    NoShorterSolution(pegs, other, n, start, end);
  }

  lemma ThreePegs(a: string, b: string, c: string, pegs: Pegs)
    requires a != b && b != c && a != c && pegs.Keys == {a, b, c}
    ensures |pegs.Keys| == 3
  {
    assert |{a, b}| == 2 && {a, b, c} - {c} == {a, b};
  }
}
