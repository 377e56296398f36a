/** Reverse-pull scrambles (generator.ts): boxes pulled off their goals from a solved template,
    each pull undone by a push, so what the scramble leaves is solvable. Positions are cells,
    and a neighbour in bounds and on floor is one the table names. */
module Scrambles {
  import opened Rules
  import opened Bfs
  import opened Reach

  /** A pull: the box it moves, where the box goes and where the robot retreats to. */
  datatype ReversePull = ReversePull(boxIndex: nat, box: Cell, robot: Cell)

  /** What a scramble leaves. */
  datatype Scrambled = Scrambled(boxes: seq<Cell>, robot: Cell, reversePulls: nat)

  // ---------------------------------------------------------------- walking

  /** The cells visited: reached, queued once each, and closed up to the head. */
  ghost predicate Visiting(b: Board, blocked: set<Cell>, robot: Cell, queue: seq<Cell>, head: nat) {
    && head <= |queue| && queue != [] && queue[0] == robot
    && (forall i | 0 <= i < |queue| :: queue[i] < |b.tiles| && Connected(b, blocked, robot, queue[i]))
    && (forall i, j | 0 <= i < j < |queue| :: queue[i] != queue[j])
    && (forall i | 0 <= i < head :: Left(b, blocked, queue, queue[i], 4))
  }

  /** The first `d` steps off `c` lead to visited cells. */
  ghost predicate Left(b: Board, blocked: set<Cell>, visited: seq<Cell>, c: Cell, d: nat) {
    forall e: nat {:trigger Free(b, blocked).To(c, e)} | e < d :: Free(b, blocked).To(c, e) != NONE ==>
      Free(b, blocked).To(c, e) in visited
  }

  /** Exact reachability of `target` around the boxes. */
  method CanRobotReach(b: Board, robot: Cell, target: Cell, boxes: seq<Cell>) returns (reach: bool)
    requires b.ValidTable() && b.Floor(robot)
    ensures reach <==> Connected(b, CellSet(boxes), robot, target)
  {
    ConnectedSelf(b, CellSet(boxes), robot);
    if robot == target { return true; }
    var blocked := CellSet(boxes);
    var queue := [robot];
    var head := 0;
    while head < |queue|
      invariant Visiting(b, blocked, robot, queue, head) && target !in queue
      decreases |b.tiles| - head
    {
      reach, queue := VisitHead(b, blocked, robot, target, queue, head);
      if reach { return; }
      DistinctCellsFit(queue, |b.tiles|);
      head := head + 1;
    }
    forall dirs ensures !IsWalk(b, blocked, robot, dirs, target) {
      if IsWalk(b, blocked, robot, dirs, target) { VisitedIsClosed(b, blocked, robot, queue, robot, dirs, target); }
    }
    reach := false;
  }

  /** Visits the head's neighbours, stopping at the target. */
  method VisitHead(b: Board, blocked: set<Cell>, robot: Cell, target: Cell, queue0: seq<Cell>, head: nat)
    returns (reach: bool, queue: seq<Cell>)
    requires b.ValidTable() && Visiting(b, blocked, robot, queue0, head) && head < |queue0| && target !in queue0
    ensures reach ==> Connected(b, blocked, robot, target)
    ensures !reach ==> Visiting(b, blocked, robot, queue, head + 1) && target !in queue
  {
    queue := queue0;
    var current := queue[head];
    for d := 0 to 4
      invariant head < |queue| && current == queue[head] && target !in queue
      invariant Visiting(b, blocked, robot, queue, head) && Left(b, blocked, queue, current, d)
    {
      var next := b.Next(current, d);
      if next != NONE && next !in queue && next !in blocked {
        ConnectedStep(b, blocked, robot, current, d);
        if next == target { return true, queue; }
        VisitOne(b, blocked, robot, queue, head, d);
        queue := queue + [next];
      } else {
        VisitNone(b, blocked, queue, current, d);
      }
    }
    VisitNext(b, blocked, robot, queue, head);
    reach := false;
  }

  lemma VisitNone(b: Board, blocked: set<Cell>, queue: seq<Cell>, c: Cell, d: nat)
    requires Left(b, blocked, queue, c, d) && (b.Next(c, d) == NONE || b.Next(c, d) in queue || b.Next(c, d) in blocked)
    ensures Left(b, blocked, queue, c, d + 1)
  {
  }

  lemma VisitNext(b: Board, blocked: set<Cell>, robot: Cell, queue: seq<Cell>, head: nat)
    requires Visiting(b, blocked, robot, queue, head) && head < |queue| && Left(b, blocked, queue, queue[head], 4)
    ensures Visiting(b, blocked, robot, queue, head + 1)
  {
  }

  lemma VisitOne(b: Board, blocked: set<Cell>, robot: Cell, queue: seq<Cell>, head: nat, d: nat)
    requires b.ValidTable() && Visiting(b, blocked, robot, queue, head) && head < |queue|
    requires Left(b, blocked, queue, queue[head], d)
    requires var next := b.Next(queue[head], d);
             next != NONE && next !in queue && next !in blocked && Connected(b, blocked, robot, next)
    ensures var next := b.Next(queue[head], d);
            Visiting(b, blocked, robot, queue + [next], head) && Left(b, blocked, queue + [next], queue[head], d + 1)
  {
    var next := b.Next(queue[head], d);
    forall i | 0 <= i < head ensures Left(b, blocked, queue + [next], (queue + [next])[i], 4) {
      assert Left(b, blocked, queue, queue[i], 4);
    }
  }

  lemma {:induction false} VisitedIsClosed(b: Board, blocked: set<Cell>, robot: Cell, queue: seq<Cell>, a: Cell,
                                           dirs: seq<nat>, c: Cell)
    requires b.ValidTable() && Visiting(b, blocked, robot, queue, |queue|) && a in queue
    requires IsWalk(b, blocked, a, dirs, c)
    ensures c in queue
    decreases |dirs|
  {
    if dirs != [] {
      var i :| 0 <= i < |queue| && queue[i] == a;
      assert Left(b, blocked, queue, queue[i], 4);
      assert Free(b, blocked).To(a, dirs[0]) in queue;
      VisitedIsClosed(b, blocked, robot, queue, Free(b, blocked).To(a, dirs[0]), dirs[1..], c);
    }
  }

  // ---------------------------------------------------------------- pulls

  /** Box `i` can be pulled in direction `d`: the cell it moves to and the one the robot
      retreats to are floor and clear, and the robot reaches the first. */
  ghost predicate Pullable(b: Board, boxes: seq<Cell>, robot: Cell, i: nat, d: nat) {
    && i < |boxes| && d < 4
    && var pull := b.Next(boxes[i], d);
       && pull != NONE && pull !in boxes
       && b.Next(pull, d) != NONE && b.Next(pull, d) !in boxes
       && Connected(b, CellSet(boxes), robot, pull)
  }

  /** No pull is legal. */
  ghost predicate Stuck(b: Board, s: State) {
    forall i: nat, d: nat :: !Pullable(b, s.boxes, s.player, i, d)
  }

  function PullOf(b: Board, boxes: seq<Cell>, i: nat, d: nat): ReversePull
    requires i < |boxes|
  {
    ReversePull(i, b.Next(boxes[i], d), b.Next(b.Next(boxes[i], d), d))
  }

  /** The pulls of boxes before `i`, and of box `i` in directions before `d`. */
  ghost predicate Lists(b: Board, boxes: seq<Cell>, robot: Cell, pulls: seq<ReversePull>, i: nat, d: nat) {
    forall p :: p in pulls <==> ListedBy(b, boxes, robot, p, i, d)
  }

  ghost predicate ListedBy(b: Board, boxes: seq<Cell>, robot: Cell, p: ReversePull, i: nat, d: nat) {
    exists j: nat, c: nat ::
      (j < i || (j == i && c < d)) && Pullable(b, boxes, robot, j, c) && p == PullOf(b, boxes, j, c)
  }

  /** The legal pulls among the first `n` pairs of box and direction, in that order. */
  ghost function PullsAmong(b: Board, boxes: seq<Cell>, robot: Cell, n: nat): seq<ReversePull> {
    if n == 0 then []
    else
      var i, d := (n - 1) / 4, (n - 1) % 4;
      PullsAmong(b, boxes, robot, n - 1) + if Pullable(b, boxes, robot, i, d) then [PullOf(b, boxes, i, d)] else []
  }

  /** `keys` numbers the legal pulls among the first `n` pairs in order, and `pulls` spells them
      out. */
  ghost predicate InOrder(b: Board, boxes: seq<Cell>, robot: Cell, n: nat, keys: seq<nat>, pulls: seq<ReversePull>) {
    && |keys| == |pulls| && (forall i, j | 0 <= i < j < |keys| :: keys[i] < keys[j])
    && (forall m: nat :: m in keys <==> m < n && Pullable(b, boxes, robot, m / 4, m % 4))
    && (forall k | 0 <= k < |keys| ::
          keys[k] / 4 < |boxes| && pulls[k] == PullOf(b, boxes, keys[k] / 4, keys[k] % 4))
  }

  /** The list has each legal pull once, box by box and up, down, left, right. */
  lemma {:induction false} PullsInOrder(b: Board, boxes: seq<Cell>, robot: Cell, n: nat) returns (keys: seq<nat>)
    ensures InOrder(b, boxes, robot, n, keys, PullsAmong(b, boxes, robot, n))
  {
    if n == 0 { return []; }
    var init := PullsInOrder(b, boxes, robot, n - 1);
    keys := OrderNext(b, boxes, robot, n - 1, init, PullsAmong(b, boxes, robot, n - 1));
  }

  lemma OrderNext(b: Board, boxes: seq<Cell>, robot: Cell, n: nat, init: seq<nat>, pulls: seq<ReversePull>)
    returns (keys: seq<nat>)
    requires InOrder(b, boxes, robot, n, init, pulls)
    ensures InOrder(b, boxes, robot, n + 1, keys,
              pulls + if Pullable(b, boxes, robot, n / 4, n % 4) then [PullOf(b, boxes, n / 4, n % 4)] else [])
  {
    if !Pullable(b, boxes, robot, n / 4, n % 4) { return init; }
    keys := init + [n];
    forall i | 0 <= i < |init| ensures init[i] < n { assert init[i] in init; }
    forall m: nat ensures m in keys <==> m in init || m == n {
    }
  }

  /** Lists box `i`'s pull in direction `d`, if it is legal. */
  method ListPull(b: Board, boxes: seq<Cell>, robot: Cell, before: seq<ReversePull>, i: nat, d: nat)
    returns (pulls: seq<ReversePull>)
    requires b.ValidTable() && b.Floor(robot) && i < |boxes| && d < 4 && Lists(b, boxes, robot, before, i, d)
    requires before == PullsAmong(b, boxes, robot, 4 * i + d)
    ensures Lists(b, boxes, robot, pulls, i, d + 1) && pulls == PullsAmong(b, boxes, robot, 4 * i + d + 1)
  {
    pulls := before;
    var pull := b.Next(boxes[i], d);
    if pull != NONE && pull !in boxes && b.Next(pull, d) != NONE && b.Next(pull, d) !in boxes {
      var reach := CanRobotReach(b, robot, pull, boxes);
      if reach { pulls := before + [PullOf(b, boxes, i, d)]; }
    }
    ListNext(b, boxes, robot, before, pulls, i, d);
    assert (4 * i + d) / 4 == i && (4 * i + d) % 4 == d;
  }

  /** Lists the legal pulls, all of them and no others. */
  method EnumerateReversePulls(b: Board, boxes: seq<Cell>, robot: Cell) returns (pulls: seq<ReversePull>)
    requires b.ValidTable() && b.Floor(robot)
    ensures Lists(b, boxes, robot, pulls, |boxes|, 0) && pulls == PullsAmong(b, boxes, robot, 4 * |boxes|)
  {
    pulls := [];
    for i := 0 to |boxes|
      invariant Lists(b, boxes, robot, pulls, i, 0) && pulls == PullsAmong(b, boxes, robot, 4 * i)
    {
      for d := 0 to 4
        invariant Lists(b, boxes, robot, pulls, i, d) && pulls == PullsAmong(b, boxes, robot, 4 * i + d)
      {
        pulls := ListPull(b, boxes, robot, pulls, i, d);
      }
      ListBox(b, boxes, robot, pulls, i);
    }
  }

  lemma ListNext(b: Board, boxes: seq<Cell>, robot: Cell, before: seq<ReversePull>, pulls: seq<ReversePull>, i: nat,
                 d: nat)
    requires Lists(b, boxes, robot, before, i, d) && i < |boxes|
    requires pulls == if Pullable(b, boxes, robot, i, d) then before + [PullOf(b, boxes, i, d)] else before
    ensures Lists(b, boxes, robot, pulls, i, d + 1)
  {
    forall p ensures p in pulls <==> ListedBy(b, boxes, robot, p, i, d + 1) {
      assert p in before <==> ListedBy(b, boxes, robot, p, i, d);
      if ListedBy(b, boxes, robot, p, i, d + 1) && !ListedBy(b, boxes, robot, p, i, d) {
        var j: nat, c: nat :| (j < i || (j == i && c < d + 1)) && Pullable(b, boxes, robot, j, c) &&
          p == PullOf(b, boxes, j, c);
        assert j == i && c == d;
      }
      if Pullable(b, boxes, robot, i, d) && p == PullOf(b, boxes, i, d) {
        assert ListedBy(b, boxes, robot, p, i, d + 1);
      }
    }
  }

  lemma ListBox(b: Board, boxes: seq<Cell>, robot: Cell, pulls: seq<ReversePull>, i: nat)
    requires Lists(b, boxes, robot, pulls, i, 4)
    ensures Lists(b, boxes, robot, pulls, i + 1, 0)
  {
    forall p ensures ListedBy(b, boxes, robot, p, i, 4) <==> ListedBy(b, boxes, robot, p, i + 1, 0) {
      if ListedBy(b, boxes, robot, p, i + 1, 0) {
        var j: nat, c: nat :| (j < i + 1 || (j == i + 1 && c < 0)) && Pullable(b, boxes, robot, j, c) &&
          p == PullOf(b, boxes, j, c);
        assert j < i || (j == i && c < 4);
      }
    }
  }

  // ---------------------------------------------------------------- solvability

  /** `moves` takes every box back to its own goal. */
  ghost predicate Restores(b: Board, s: State, goals: seq<Cell>, moves: seq<nat>) {
    Play(b, s, moves).Some? && Play(b, s, moves).value.boxes == goals
  }

  /** A pull keeps the position valid, and one push and the walk back undo it. */
  lemma PullIsUndone(b: Board, s: State, i: nat, d: nat) returns (moves: seq<nat>)
    requires b.ValidTable() && ValidState(b, s) && Pullable(b, s.boxes, s.player, i, d)
    ensures var p := PullOf(b, s.boxes, i, d);
            ValidState(b, State(p.robot, s.boxes[i := p.box])) &&
              Play(b, State(p.robot, s.boxes[i := p.box]), moves) == Some(s)
  {
    var p := PullOf(b, s.boxes, i, d);
    var t := State(p.robot, s.boxes[i := p.box]);
    MirrorOf(b, s.boxes[i], d);
    MirrorOf(b, p.box, d);
    PulledIsValid(b, s, i, d);
    var walk :| IsWalk(b, CellSet(s.boxes), s.player, walk, p.box);
    WalkBack(b, CellSet(s.boxes), s.player, walk, p.box);
    var at := State(p.box, s.boxes);
    PushBack(b, s, i, d);
    WalkPlays(b, at, Reversed(walk), s.player);
    moves := [Opposite(d)] + Reversed(walk);
    assert moves[1..] == Reversed(walk);
  }

  lemma PulledIsValid(b: Board, s: State, i: nat, d: nat)
    requires b.ValidTable() && ValidState(b, s) && Pullable(b, s.boxes, s.player, i, d)
    ensures var p := PullOf(b, s.boxes, i, d);
            ValidState(b, State(p.robot, s.boxes[i := p.box])) && ValidState(b, State(p.box, s.boxes))
  {
    var p := PullOf(b, s.boxes, i, d);
    MirrorOf(b, s.boxes[i], d);
    MirrorOf(b, p.box, d);
    var boxes := s.boxes[i := p.box];
    assert b.Next(p.robot, Opposite(d)) == p.box && b.Next(p.box, Opposite(d)) == s.boxes[i];
    assert p.robot != p.box;
    forall j, k | 0 <= j < k < |boxes| ensures boxes[j] != boxes[k] {
      if j == i { assert s.boxes[k] in s.boxes; }
      if k == i { assert s.boxes[j] in s.boxes; }
    }
  }

  lemma PushBack(b: Board, s: State, i: nat, d: nat)
    requires b.ValidTable() && ValidState(b, s) && Pullable(b, s.boxes, s.player, i, d)
    ensures var p := PullOf(b, s.boxes, i, d);
            Step(b, State(p.robot, s.boxes[i := p.box]), Opposite(d)) == Some(Stepped(State(p.box, s.boxes), Push(i)))
  {
    var p := PullOf(b, s.boxes, i, d);
    var boxes := s.boxes[i := p.box];
    MirrorOf(b, s.boxes[i], d);
    MirrorOf(b, p.box, d);
    PulledIsValid(b, s, i, d);
    assert boxes[i] == p.box && IndexOf(boxes, p.box) == i;
    forall j | 0 <= j < |boxes| ensures boxes[j] != s.boxes[i] {
      if j < i { assert s.boxes[j] != s.boxes[i]; }
    }
    assert boxes[i := s.boxes[i]] == s.boxes;
  }

  /** A step from `t` pushes box `i` back in direction `d`, onto where it stands in `s`, and leaves
      the keeper where the robot of `s` can walk. */
  ghost predicate PushesBack(b: Board, t: State, s: State, i: nat, d: nat) {
    && ValidState(b, t) && t.player !in s.boxes && Step(b, t, d).Some? && Step(b, t, d).value.move == Push(i)
    && Step(b, t, d).value.state.boxes == s.boxes
    && Connected(b, CellSet(s.boxes), s.player, Step(b, t, d).value.state.player)
  }

  /** The pulls are exactly the pushes played backwards. */
  lemma PullIsReversePush(b: Board, s: State, i: nat, d: nat)
    requires b.ValidTable() && ValidState(b, s) && d < 4
    ensures Pullable(b, s.boxes, s.player, i, d) <==> exists t :: PushesBack(b, t, s, i, Opposite(d))
  {
    if Pullable(b, s.boxes, s.player, i, d) {
      var p := PullOf(b, s.boxes, i, d);
      var t := State(p.robot, s.boxes[i := p.box]);
      PulledIsValid(b, s, i, d);
      PushBack(b, s, i, d);
      MirrorOf(b, s.boxes[i], d);
      MirrorOf(b, p.box, d);
      assert PushesBack(b, t, s, i, Opposite(d));
    }
    if t :| PushesBack(b, t, s, i, Opposite(d)) { PushIsPull(b, t, s, i, d); }
  }

  lemma PushIsPull(b: Board, t: State, s: State, i: nat, d: nat)
    requires b.ValidTable() && ValidState(b, s) && d < 4 && PushesBack(b, t, s, i, Opposite(d))
    ensures Pullable(b, s.boxes, s.player, i, d)
  {
    StepKeepsState(b, t, Opposite(d));
    var c := Step(b, t, Opposite(d)).value.state.player;
    OppositeTwice(d);
    MirrorOf(b, t.player, Opposite(d));
    MirrorOf(b, c, Opposite(d));
    assert s.boxes[i] == b.Next(c, Opposite(d)) && b.Next(s.boxes[i], d) == c && b.Next(c, d) == t.player;
  }

  lemma RestoresBefore(b: Board, t: State, s: State, goals: seq<Cell>, undo: seq<nat>)
    requires Play(b, t, undo) == Some(s) && exists moves :: Restores(b, s, goals, moves)
    ensures exists moves :: Restores(b, t, goals, moves)
  {
    var moves :| Restores(b, s, goals, moves);
    PlayConcat(b, t, undo, moves);
    assert Restores(b, t, goals, undo + moves);
  }

  /** Every draw is in [0, 1). */
  ghost predicate Unit(rng: nat -> real) {
    forall k :: 0.0 <= rng(k) < 1.0
  }

  ghost predicate Restorable(b: Board, s: State, goals: seq<Cell>) {
    exists moves :: Restores(b, s, goals, moves)
  }

  /** A pick among `n` from a number in [0, 1). */
  function Pick(r: real, n: nat): (k: nat)
    requires 0.0 <= r < 1.0 && n > 0
    ensures k < n
  {
    assert r * n as real < n as real;
    (r * n as real).Floor
  }

  /** The draws fall on the `n` entries in equal parts. */
  lemma PickMeans(r: real, n: nat, k: nat)
    requires 0.0 <= r < 1.0 && k < n
    ensures Pick(r, n) == k <==> k as real <= r * n as real < k as real + 1.0
  {
  }

  /** The position after `n` pulls, the `k`-th the one `rng` picks from the list with its `k`-th
      number, as long as there is one to pick. */
  ghost function PulledBy(b: Board, s: State, rng: nat -> real, n: nat): State
    requires Unit(rng)
  {
    if n == 0 then s
    else
      AfterPick(b, PulledBy(b, s, rng, n - 1), rng(n - 1))
  }

  ghost function AfterPick(b: Board, s: State, r: real): State
    requires 0.0 <= r < 1.0
  {
    var pulls := PullsAmong(b, s.boxes, s.player, 4 * |s.boxes|);
    if pulls == [] then s
    else
      var pull := pulls[Pick(r, |pulls|)];
      if pull.boxIndex < |s.boxes| then State(pull.robot, s.boxes[pull.boxIndex := pull.box]) else s
  }

  lemma PulledNext(b: Board, s: State, rng: nat -> real, n: nat)
    requires Unit(rng)
    ensures PulledBy(b, s, rng, n + 1) == AfterPick(b, PulledBy(b, s, rng, n), rng(n))
  {
  }

  /** The pull that the `n`-th draw picks. */
  method PullNext(b: Board, ghost goals: seq<Cell>, ghost robot: Cell, s: State, pulls: seq<ReversePull>,
                  rng: nat -> real, n: nat) returns (t: State)
    requires b.ValidTable() && ValidState(b, s) && Unit(rng) && s == PulledBy(b, State(robot, goals), rng, n)
    requires Lists(b, s.boxes, s.player, pulls, |s.boxes|, 0) && pulls != []
    requires pulls == PullsAmong(b, s.boxes, s.player, 4 * |s.boxes|) && Restorable(b, s, goals)
    ensures ValidState(b, t) && Restorable(b, t, goals) && t == PulledBy(b, State(robot, goals), rng, n + 1)
  {
    t := PullOnce(b, s, goals, pulls, rng(n));
    PulledNext(b, State(robot, goals), rng, n);
  }

  /** Starts solved and pulls, up to `pullCount` times, as `rng` chooses. For every `rng` the
      outcome is a state from which legal steps put each box back on the goal it came from; it
      falls short of `pullCount` only where no pull is legal. */
  method ScrambleByReversePull(b: Board, goals: seq<Cell>, robot: Cell, pullCount: nat, rng: nat -> real)
    returns (r: Scrambled)
    requires b.ValidTable() && ValidState(b, State(robot, goals)) && Unit(rng)
    ensures ValidState(b, State(r.robot, r.boxes)) && r.reversePulls <= pullCount
    ensures Restorable(b, State(r.robot, r.boxes), goals)
    ensures State(r.robot, r.boxes) == PulledBy(b, State(robot, goals), rng, r.reversePulls)
    ensures r.reversePulls < pullCount ==> Stuck(b, State(r.robot, r.boxes))
  {
    var s := State(robot, goals);
    assert Restores(b, s, goals, []);
    var reversePulls, stale, drawn := 0, 0, 0;
    var iteration := 0;
    while iteration < pullCount * 3 && reversePulls < pullCount && stale <= pullCount * 2
      invariant ValidState(b, s) && reversePulls <= pullCount && Restorable(b, s, goals)
      invariant s == PulledBy(b, State(robot, goals), rng, reversePulls) && drawn == reversePulls
      invariant iteration == reversePulls + stale
      invariant stale > 0 ==> Stuck(b, s)
    {
      var pulls := EnumerateReversePulls(b, s.boxes, s.player);
      if |pulls| == 0 {
        NothingListed(b, s, pulls);
        stale := stale + 1;
      } else {
        SomethingListed(b, s, pulls);
        s := PullNext(b, goals, robot, s, pulls, rng, drawn);
        drawn, reversePulls, stale := drawn + 1, reversePulls + 1, 0;
      }
      iteration := iteration + 1;
    }
    r := Scrambled(s.boxes, s.player, reversePulls);
  }

  lemma NothingListed(b: Board, s: State, pulls: seq<ReversePull>)
    requires Lists(b, s.boxes, s.player, pulls, |s.boxes|, 0) && pulls == []
    ensures Stuck(b, s)
  {
    forall i: nat, d: nat ensures !Pullable(b, s.boxes, s.player, i, d) {
      if Pullable(b, s.boxes, s.player, i, d) {
        assert ListedBy(b, s.boxes, s.player, PullOf(b, s.boxes, i, d), |s.boxes|, 0);
      }
    }
  }

  lemma SomethingListed(b: Board, s: State, pulls: seq<ReversePull>)
    requires Lists(b, s.boxes, s.player, pulls, |s.boxes|, 0) && pulls != []
    ensures !Stuck(b, s)
  {
    assert pulls[0] in pulls;
    assert ListedBy(b, s.boxes, s.player, pulls[0], |s.boxes|, 0);
  }

  /** One pull, picked by `r` from those listed. */
  method PullOnce(b: Board, s: State, ghost goals: seq<Cell>, pulls: seq<ReversePull>, r: real) returns (t: State)
    requires b.ValidTable() && ValidState(b, s) && Lists(b, s.boxes, s.player, pulls, |s.boxes|, 0)
    requires pulls == PullsAmong(b, s.boxes, s.player, 4 * |s.boxes|) && pulls != [] && 0.0 <= r < 1.0
    requires Restorable(b, s, goals)
    ensures ValidState(b, t) && Restorable(b, t, goals) && t == AfterPick(b, s, r)
  {
    var pull := pulls[Pick(r, |pulls|)];
    TakePull(b, s, goals, pulls, pull);
    t := State(pull.robot, s.boxes[pull.boxIndex := pull.box]);
  }

  lemma TakePull(b: Board, s: State, goals: seq<Cell>, pulls: seq<ReversePull>, pull: ReversePull)
    requires b.ValidTable() && ValidState(b, s) && Lists(b, s.boxes, s.player, pulls, |s.boxes|, 0) && pull in pulls
    requires exists moves :: Restores(b, s, goals, moves)
    ensures pull.boxIndex < |s.boxes|
    ensures var t := State(pull.robot, s.boxes[pull.boxIndex := pull.box]);
            ValidState(b, t) && exists moves :: Restores(b, t, goals, moves)
  {
    assert ListedBy(b, s.boxes, s.player, pull, |s.boxes|, 0);
    var i: nat, d: nat :| (i < |s.boxes| || (i == |s.boxes| && d < 0)) && Pullable(b, s.boxes, s.player, i, d) &&
      pull == PullOf(b, s.boxes, i, d);
    var undo := PullIsUndone(b, s, i, d);
    RestoresBefore(b, State(pull.robot, s.boxes[pull.boxIndex := pull.box]), s, goals, undo);
  }

  /** On a board whose goals match the boxes slot by slot, a scramble is solvable. */
  lemma ScrambleIsSolvable(b: Board, s: State, goals: seq<Cell>)
    requires |goals| == |b.labels| && forall i | 0 <= i < |goals| :: b.OnGoal(i, goals[i])
    requires exists moves :: Restores(b, s, goals, moves)
    ensures Solvable(b, s)
  {
    var moves :| Restores(b, s, goals, moves);
    assert Solution(b, s, moves);
  }
}
