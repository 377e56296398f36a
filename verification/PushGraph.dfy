/** Solutions as pushes: every solution of an unsolved state is a walk to a stand, one push, and
    a solution of the child, so the search over pushes misses none and counts its moves. */
module PushGraph {
  import opened Rules
  import opened Bfs
  import opened Reach

  /** Some solution of `s` has exactly `n` moves. */
  ghost predicate SolvesIn(b: Board, s: State, n: nat) {
    exists moves {:trigger Solution(b, s, moves)} :: Solution(b, s, moves) && |moves| == n
  }

  /** The board and the other boxes allow box `i` to move in direction `d`, with a stand behind it. */
  predicate Pushable(b: Board, s: State, i: nat, d: nat) {
    && i < |s.boxes| && d < 4
    && b.Next(s.boxes[i], d) != NONE && b.Next(s.boxes[i], Opposite(d)) != NONE
    && b.Next(s.boxes[i], d) !in s.boxes
  }

  /** The cell the keeper pushes from. */
  function Stand(b: Board, s: State, i: nat, d: nat): Cell
    requires i < |s.boxes|
  {
    b.Next(s.boxes[i], Opposite(d))
  }

  /** The state after the push. */
  function Child(b: Board, s: State, i: nat, d: nat): State
    requires i < |s.boxes|
  {
    State(s.boxes[i], s.boxes[i := b.Next(s.boxes[i], d)])
  }

  /** `dirs` walks the keeper to the stand of a possible push. */
  ghost predicate WalkToPush(b: Board, s: State, i: nat, d: nat, dirs: seq<nat>) {
    Pushable(b, s, i, d) && IsWalk(b, CellSet(s.boxes), s.player, dirs, Stand(b, s, i, d))
  }

  /** Stepping off the stand makes the push. */
  lemma PushIsStep(b: Board, s: State, i: nat, d: nat)
    requires b.ValidTable() && Pushable(b, s, i, d) && ValidState(b, State(Stand(b, s, i, d), s.boxes))
    ensures Step(b, State(Stand(b, s, i, d), s.boxes), d) == Some(Stepped(Child(b, s, i, d), Push(i)))
    ensures ValidState(b, Child(b, s, i, d))
  {
    var at := State(Stand(b, s, i, d), s.boxes);
    MirrorOf(b, s.boxes[i], Opposite(d));
    OppositeTwice(d);
    assert b.Next(at.player, d) == s.boxes[i];
    assert IndexOf(s.boxes, s.boxes[i]) == i;
    StepKeepsState(b, at, d);
  }

  /** The walk and the push are a run of their moves. */
  lemma PushPlays(b: Board, s: State, i: nat, d: nat, dirs: seq<nat>)
    requires b.ValidTable() && ValidState(b, s) && WalkToPush(b, s, i, d, dirs)
    ensures Play(b, s, dirs + [d]) == Some(Child(b, s, i, d)) && ValidState(b, Child(b, s, i, d))
  {
    var at := State(Stand(b, s, i, d), s.boxes);
    WalkPlays(b, s, dirs, at.player);
    PushIsStep(b, s, i, d);
    PlayConcat(b, s, dirs, [d]);
    assert [d][1..] == [];
    assert Play(b, at, [d]) == Some(Child(b, s, i, d));
  }

  /** A solution of the child is a solution of the parent, the walk and the push longer. */
  lemma ChildSolutionExtends(b: Board, s: State, i: nat, d: nat, dirs: seq<nat>, n: nat)
    requires b.ValidTable() && ValidState(b, s) && WalkToPush(b, s, i, d, dirs)
    requires SolvesIn(b, Child(b, s, i, d), n)
    ensures SolvesIn(b, s, |dirs| + 1 + n)
  {
    var rest :| Solution(b, Child(b, s, i, d), rest) && |rest| == n;
    PushPlays(b, s, i, d, dirs);
    PlayConcat(b, s, dirs + [d], rest);
    assert Solution(b, s, dirs + [d] + rest);
  }

  /** Every solution of an unsolved state starts with a walk and a push of some box. */
  lemma {:induction false} SolutionSplits(b: Board, s: State, moves: seq<nat>)
    returns (i: nat, d: nat, dirs: seq<nat>, rest: seq<nat>)
    requires b.ValidTable() && ValidState(b, s) && Solution(b, s, moves) && !Solved(b, s)
    ensures WalkToPush(b, s, i, d, dirs) && ValidState(b, Child(b, s, i, d))
    ensures Solution(b, Child(b, s, i, d), rest) && |dirs| + 1 + |rest| == |moves|
    decreases |moves|
  {
    var t := Step(b, s, moves[0]).value;
    StepKeepsState(b, s, moves[0]);
    if t.move.Push? {
      i, d, dirs, rest := t.move.slot, moves[0], [], moves[1..];
      MirrorOf(b, s.player, d);
      assert Stand(b, s, i, d) == s.player;
      assert IsWalk(b, CellSet(s.boxes), s.player, [], s.player);
    } else {
      assert Solution(b, t.state, moves[1..]);
      assert !Solved(b, t.state);
      var dirs';
      i, d, dirs', rest := SolutionSplits(b, t.state, moves[1..]);
      dirs := [moves[0]] + dirs';
      assert dirs[1..] == dirs';
      assert IsWalk(b, CellSet(s.boxes), s.player, dirs, Stand(b, s, i, d));
    }
  }

  /** Swapping boxes of one label changes no solution length. */
  lemma SolvesInSamePosition(b: Board, s: State, t: State, n: nat)
    requires b.ValidTable() && ValidState(b, s) && ValidState(b, t) && SamePosition(b, s, t) && SolvesIn(b, s, n)
    ensures SolvesIn(b, t, n)
  {
    var moves :| Solution(b, s, moves) && |moves| == n;
    SolutionSamePosition(b, s, t, moves);
  }

  /** Runs from one position and its twin stay twins. */
  lemma {:induction false} PlaySamePosition(b: Board, s: State, t: State, moves: seq<nat>)
    requires b.ValidTable() && ValidState(b, s) && ValidState(b, t) && SamePosition(b, s, t)
    requires Play(b, s, moves).Some?
    ensures Play(b, t, moves).Some? && ValidState(b, Play(b, s, moves).value) && ValidState(b, Play(b, t, moves).value)
    ensures SamePosition(b, Play(b, s, moves).value, Play(b, t, moves).value)
    decreases |moves|
  {
    if moves != [] {
      StepSamePosition(b, s, t, moves[0]);
      StepKeepsState(b, s, moves[0]);
      StepKeepsState(b, t, moves[0]);
      PlaySamePosition(b, Step(b, s, moves[0]).value.state, Step(b, t, moves[0]).value.state, moves[1..]);
    }
  }
}
