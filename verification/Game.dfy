/** Live play (game.rs): what a player's moves, undos, resets and pasted routes do to the position,
    the letters played and the counts. */
module Games {
  import opened Rules

  /** Longer routes are refused. */
  const MAX_ROUTE: nat := 100_000
  const ACTIONS: string := "UDLR"

  /** What taking a step back needs. */
  datatype Undo = Undo(player: Cell, step: Move)

  /** Everything a game keeps but its letters. */
  datatype Position = Position(state: State, history: seq<Undo>, pushes: nat)

  datatype ReplayError = TooLong | InvalidAction(index: nat) | Blocked(index: nat) | PastLimit

  datatype Replayed = Done | Failed(error: ReplayError)

  /** The direction index of an action letter. */
  function DecodeDirection(action: char): (d: Option<nat>)
    ensures d.Some? ==> d.value < 4 && ACTIONS[d.value] == action
    ensures d.None? ==> action !in ACTIONS
  {
    if action == 'U' then Some(0)
    else if action == 'D' then Some(1)
    else if action == 'L' then Some(2)
    else if action == 'R' then Some(3)
    else None
  }

  // ---------------------------------------------------------------- what a route means

  function Start(b: Board): Position {
    Position(b.initial, [], 0)
  }

  /** One move of a game: refused once solved, at the limit, or by the rules. */
  function Moved(b: Board, p: Position, d: nat): Option<Position> {
    if Solved(b, p.state) || |p.history| >= MAX_ROUTE then None
    else
      match Step(b, p.state, d)
      case None => None
      case Some(t) => Some(Position(t.state, p.history + [Undo(p.state.player, t.move)],
        p.pushes + if t.move.Push? then 1 else 0))
  }

  /** A fresh, strict replay of a route. */
  function After(b: Board, route: string): Option<Position>
    decreases |route|
  {
    if route == "" then Some(Start(b))
    else
      match After(b, route[..|route| - 1])
      case None => None
      case Some(p) =>
        match DecodeDirection(route[|route| - 1])
        case None => None
        case Some(d) => Moved(b, p, d)
  }

  /** Taking back the last move of a position. */
  function TakenBack(p: Position): Position
    requires p.history != []
    requires var step := p.history[|p.history| - 1].step; step.Push? ==> step.slot < |p.state.boxes|
  {
    var last := p.history[|p.history| - 1];
    var boxes := if last.step.Push? then p.state.boxes[last.step.slot := p.state.player] else p.state.boxes;
    Position(State(last.player, boxes), p.history[..|p.history| - 1],
             if last.step.Push? && p.pushes > 0 then p.pushes - 1 else p.pushes)
  }

  /** Undo exactly inverts a move. */
  lemma MoveTakenBack(b: Board, p: Position, d: nat)
    requires b.ValidTable() && ValidState(b, p.state) && Moved(b, p, d).Some?
    ensures var q := Moved(b, p, d).value;
            && ValidState(b, q.state) && q.history != []
            && (var step := q.history[|q.history| - 1].step; step.Push? ==> step.slot < |q.state.boxes|)
            && TakenBack(q) == p
  {
    var q := Moved(b, p, d).value;
    StepKeepsState(b, p.state, d);
    var t := Step(b, p.state, d).value;
    assert q.history[..|q.history| - 1] == p.history;
    if t.move.Push? {
      assert p.state.boxes[t.move.slot := b.Next(t.state.player, d)][t.move.slot := t.state.player] == p.state.boxes;
    }
  }

  /** The directions a route spells. */
  function Directions(route: string): seq<nat>
    requires forall c | c in route :: DecodeDirection(c).Some?
  {
    seq(|route|, i requires 0 <= i < |route| => DecodeDirection(route[i]).value)
  }

  ghost function Pushed(history: seq<Undo>): nat {
    if history == [] then 0 else Pushed(history[..|history| - 1]) + if history[|history| - 1].step.Push? then 1 else 0
  }

  /** What every replayed route keeps: one entry a letter and at most MAX_ROUTE of them, its
      pushes counted, the state that its steps play to, and no proper prefix solved. */
  lemma {:induction false} RouteMeaning(b: Board, route: string)
    requires b.ValidTable() && ValidState(b, b.initial) && After(b, route).Some?
    ensures var p := After(b, route).value;
            && |p.history| == |route| <= MAX_ROUTE && p.pushes == Pushed(p.history) && ValidState(b, p.state)
            && (forall c | c in route :: DecodeDirection(c).Some?)
            && Play(b, b.initial, Directions(route)) == Some(p.state)
    ensures forall k | 0 <= k < |route| :: After(b, route[..k]).Some? && !Solved(b, After(b, route[..k]).value.state)
    decreases |route|
  {
    if route != "" {
      var init, last := route[..|route| - 1], route[|route| - 1];
      RouteMeaning(b, init);
      var p, d := After(b, init).value, DecodeDirection(last).value;
      assert route == init + [last];
      StepKeepsState(b, p.state, d);
      assert Directions(route) == Directions(init) + [d];
      PlayConcat(b, b.initial, Directions(init), [d]);
      assert [d][1..] == [];
      var q := After(b, route).value;
      assert q.history[..|q.history| - 1] == p.history;
      forall k | 0 <= k < |route| ensures After(b, route[..k]).Some? && !Solved(b, After(b, route[..k]).value.state) {
        if k < |init| { assert route[..k] == init[..k]; } else { assert route[..k] == init; }
      }
    }
  }

  /** Letters that spell moves, each legal where the ones before it lead, and no position solved
      before the last. */
  ghost predicate Plays(b: Board, route: string) {
    && |route| <= MAX_ROUTE && (forall c | c in route :: c in ACTIONS)
    && (forall c | c in route :: DecodeDirection(c).Some?)
    && Play(b, b.initial, Directions(route)).Some?
    && forall k | 0 <= k < |route| :: !SolvedAfter(b, route, k)
  }

  /** The first `k` letters lead to a solved position. */
  ghost predicate SolvedAfter(b: Board, route: string, k: nat)
    requires k <= |route| && forall c | c in route :: DecodeDirection(c).Some?
  {
    var end := Play(b, b.initial, Directions(route)[..k]);
    end.Some? && Solved(b, end.value)
  }

  /** A route replays exactly when its letters play. */
  lemma ReplaysIffPlays(b: Board, route: string)
    requires b.ValidTable() && ValidState(b, b.initial)
    ensures After(b, route).Some? <==> Plays(b, route)
  {
    if After(b, route).Some? { ReplayedPlays(b, route); }
    if Plays(b, route) { PlayedReplays(b, route); }
  }

  lemma {:induction false} PlayedReplays(b: Board, route: string)
    requires b.ValidTable() && ValidState(b, b.initial) && Plays(b, route)
    ensures After(b, route).Some?
    decreases |route|
  {
    if route != "" {
      var init, last := route[..|route| - 1], route[|route| - 1];
      assert route == init + [last] && last in route && forall c | c in init :: c in route;
      assert !SolvedAfter(b, route, |init|);
      assert Directions(init) == Directions(route)[..|init|];
      assert Directions(route) == Directions(init) + [DecodeDirection(last).value];
      PlayConcat(b, b.initial, Directions(init), [DecodeDirection(last).value]);
      InitPlays(b, route);
      PlayedReplays(b, init);
      RouteMeaning(b, init);
    }
  }

  lemma InitPlays(b: Board, route: string)
    requires Plays(b, route) && route != ""
    ensures Plays(b, route[..|route| - 1])
  {
    var init, last := route[..|route| - 1], route[|route| - 1];
    assert route == init + [last] && forall c | c in init :: c in route;
    assert Directions(init) == Directions(route)[..|init|];
    assert Directions(route) == Directions(init) + [DecodeDirection(last).value];
    PlayConcat(b, b.initial, Directions(init), [DecodeDirection(last).value]);
    forall k | 0 <= k < |init| ensures !SolvedAfter(b, init, k) {
      assert Directions(init)[..k] == Directions(route)[..k];
      assert !SolvedAfter(b, route, k);
    }
  }

  lemma ReplayedPlays(b: Board, route: string)
    requires b.ValidTable() && ValidState(b, b.initial) && After(b, route).Some?
    ensures Plays(b, route)
  {
    RouteMeaning(b, route);
    forall c | c in route ensures c in ACTIONS {
      assert ACTIONS[DecodeDirection(c).value] in ACTIONS;
    }
    forall k | 0 <= k < |route| ensures !SolvedAfter(b, route, k) {
      RouteMeaning(b, route[..k]);
      assert Directions(route[..k]) == Directions(route)[..k];
    }
  }

  /** A prefix of a replayed route replays. */
  lemma {:induction false} PrefixReplays(b: Board, route: string, k: nat)
    requires k <= |route| && After(b, route[..k]).None?
    ensures After(b, route).None?
    decreases |route|
  {
    if k < |route| {
      assert route[..|route| - 1][..k] == route[..k];
      PrefixReplays(b, route[..|route| - 1], k);
    } else {
      assert route[..k] == route;
    }
  }

  /** Taking back a replayed route's last move leaves the route without it. */
  lemma LastTakenBack(b: Board, route: string, p: Position)
    requires b.ValidTable() && ValidState(b, b.initial) && After(b, route) == Some(p) && route != ""
    ensures p.history != [] && |p.state.boxes| == |b.labels|
    ensures var step := p.history[|p.history| - 1].step; step.Push? ==> step.slot < |p.state.boxes| && p.pushes > 0
    ensures After(b, route[..|route| - 1]) == Some(TakenBack(p))
  {
    var init := route[..|route| - 1];
    RouteMeaning(b, init);
    MoveTakenBack(b, After(b, init).value, DecodeDirection(route[|route| - 1]).value);
  }

  lemma LetterBack(d: nat)
    requires d < 4
    ensures DecodeDirection(ACTIONS[d]) == Some(d)
  {
  }

  class Game {
    const board: Board
    var state: State
    var pushes: nat
    var history: seq<Undo>
    var actions: string

    ghost function At(): Position
      reads this
    {
      Position(state, history, pushes)
    }

    /** The game equals a fresh replay of its own actions. */
    ghost predicate Valid()
      reads this
    {
      board.Valid() && ValidState(board, board.initial) && After(board, actions) == Some(At())
    }

    constructor (board: Board)
      requires board.Valid() && ValidState(board, board.initial)
      ensures Valid() && this.board == board && actions == ""
    {
      this.board := board;
      state, pushes, history, actions := board.initial, 0, [], "";
    }

    /** Plays one move and records it for undo; false, with nothing changed, when it is
        refused. */
    method StepIn(direction: nat) returns (played: bool)
      requires Valid()
      modifies this
      ensures Valid()
      ensures played <==> Moved(board, old(At()), direction).Some?
      ensures played ==> direction < 4 && actions == old(actions) + [ACTIONS[direction]]
      ensures played ==> Some(At()) == Moved(board, old(At()), direction)
      ensures played <==> !Solved(board, old(state)) && |old(history)| < MAX_ROUTE &&
                          Step(board, old(state), direction).Some?
      ensures played ==>
                var t := Step(board, old(state), direction).value;
                && state == t.state && history == old(history) + [Undo(old(state.player), t.move)]
                && pushes == old(pushes) + if t.move.Push? then 1 else 0
      ensures !played ==> At() == old(At()) && actions == old(actions)
    {
      if Solved(board, state) || |history| >= MAX_ROUTE { return false; }
      var player := state.player;
      var stepped := Step(board, state, direction);
      if stepped.None? { return false; }
      assert (actions + [ACTIONS[direction]])[..|actions|] == actions;
      LetterBack(direction);
      state := stepped.value.state;
      history := history + [Undo(player, stepped.value.move)];
      pushes := pushes + if stepped.value.move.Push? then 1 else 0;
      actions := actions + [ACTIONS[direction]];
      return true;
    }

    /** Takes back the last move: the game is what it was before that move was played. */
    method TakeBack() returns (undone: bool)
      requires Valid()
      modifies this
      ensures Valid()
      ensures undone <==> old(actions) != ""
      ensures undone ==> actions == old(actions)[..|old(actions)| - 1]
      ensures !undone ==> At() == old(At()) && actions == old(actions)
    {
      RouteMeaning(board, actions);
      if |history| == 0 { return false; }
      LastTakenBack(board, actions, At());
      PopMove();
      return true;
    }

    /** Pops the last undo record and puts the box and the player back. */
    method PopMove()
      requires history != [] && actions != ""
      requires var step := history[|history| - 1].step; step.Push? ==> step.slot < |state.boxes| && pushes > 0
      modifies this
      ensures At() == TakenBack(old(At())) && actions == old(actions)[..|old(actions)| - 1]
    {
      var last := history[|history| - 1];
      history := history[..|history| - 1];
      if last.step.Push? {
        state := State(state.player, state.boxes[last.step.slot := state.player]);
        pushes := pushes - 1;
      }
      state := State(last.player, state.boxes);
      actions := actions[..|actions| - 1];
    }

    /** Returns to the start and forgets every move. */
    method Reset()
      requires Valid()
      modifies this
      ensures Valid() && actions == "" && At() == Start(board)
    {
      state, history, actions, pushes := board.initial, [], "", 0;
    }

    /** Refuses when `moves` more moves would pass the limit. */
    method CheckExtension(moves: nat) returns (r: Replayed)
      requires Valid()
      ensures r == if |actions| + moves > MAX_ROUTE then Failed(PastLimit) else Done
    {
      RouteMeaning(board, actions);
      if moves > MAX_ROUTE - |history| { return Failed(PastLimit); }
      return Done;
    }

    /** Plays `route` from the start in place of this game, all of it or nothing: an error names the
        least index at which it fails, and leaves this game as it was. */
    method Replay(route: string) returns (r: Replayed)
      requires Valid()
      modifies this
      ensures Valid()
      ensures r.Done? <==> |route| <= MAX_ROUTE && After(board, route).Some?
      ensures r.Done? ==> actions == route
      ensures r.Failed? ==> At() == old(At()) && actions == old(actions)
      ensures r.Failed? <==> |route| > MAX_ROUTE || exists k: nat :: Refuses(board, route, k)
      ensures r.Failed? && |route| <= MAX_ROUTE ==>
                exists k: nat :: Refuses(board, route, k) && r.error == RefusalAt(route, k)
      ensures r.Failed? && |route| <= MAX_ROUTE ==>
                exists k: nat {:trigger route[k]} :: k < |route| && Plays(board, route[..k]) &&
                  !Plays(board, route[..k + 1]) &&
                  r.error == if route[k] in ACTIONS then Blocked(k) else InvalidAction(k)
      ensures |route| > MAX_ROUTE ==> r == Failed(TooLong)
    {
      if |route| > MAX_ROUTE { return Failed(TooLong); }
      var next := new Game(board);
      assert route[..0] == "";
      for index := 0 to |route|
        invariant next.Valid() && fresh(next) && next.board == board && next.actions == route[..index]
        invariant Valid() && At() == old(At()) && actions == old(actions)
      {
        var direction := DecodeDirection(route[index]);
        assert route[..index + 1][..index] == route[..index];
        if direction.None? {
          RefusedHere(board, route, index);
          RefusedMeans(board, route, index);
          return Failed(InvalidAction(index));
        }
        var played := next.StepIn(direction.value);
        if !played {
          RefusedHere(board, route, index);
          RefusedMeans(board, route, index);
          return Failed(Blocked(index));
        }
      }
      assert route[..|route|] == route;
      NeverRefused(board, route);
      state, pushes, history, actions := next.state, next.pushes, next.history, next.actions;
      return Done;
    }
  }

  /** The letter at `k` is the first that does not replay. */
  ghost predicate Refuses(b: Board, route: string, k: nat) {
    k < |route| && After(b, route[..k]).Some? && After(b, route[..k + 1]).None?
  }

  function RefusalAt(route: string, k: nat): ReplayError
    requires k < |route|
  {
    if DecodeDirection(route[k]).None? then InvalidAction(k) else Blocked(k)
  }

  /** The letters before `k` play, the letter at `k` does not, and the error says which kind. */
  lemma RefusedMeans(b: Board, route: string, k: nat)
    requires b.ValidTable() && ValidState(b, b.initial) && Refuses(b, route, k)
    ensures Plays(b, route[..k]) && !Plays(b, route[..k + 1])
    ensures RefusalAt(route, k) == if route[k] in ACTIONS then Blocked(k) else InvalidAction(k)
  {
    ReplaysIffPlays(b, route[..k]);
    ReplaysIffPlays(b, route[..k + 1]);
  }

  lemma RefusedHere(b: Board, route: string, k: nat)
    requires k < |route| && After(b, route[..k]).Some?
    requires DecodeDirection(route[k]).None? ||
               Moved(b, After(b, route[..k]).value, DecodeDirection(route[k]).value).None?
    ensures Refuses(b, route, k) && After(b, route).None?
  {
    assert route[..k + 1][..k] == route[..k];
    PrefixReplays(b, route, k + 1);
  }

  lemma NeverRefused(b: Board, route: string)
    requires After(b, route).Some?
    ensures forall k: nat :: !Refuses(b, route, k)
  {
    forall k: nat ensures !Refuses(b, route, k) {
      if Refuses(b, route, k) { PrefixReplays(b, route, k + 1); }
    }
  }
}
