/** The page's solver client (solver-client.ts): whichever engine runs it, no search overlaps
    another, and no route is held or shown that the replay check refuses. */
module Clients {
  import opened Rules
  import opened Games

  /** What a search reports: a route, the metrics the client checks, and whether it is final. */
  datatype Update = Update(done: bool, route: Option<string>, solved: bool, proof: Claim, best: Option<nat>,
    lowerBound: Option<nat>)

  datatype Claim = NoProof | OptimalProof | BoundedProof | UnsolvableProof

  datatype ClientState = Idle | Searching(active: Active) | Completed(prefix: string, route: Option<string>)

  /** Where starting a search can throw: before it is built, or on one of its three set-up
      steps. */
  datatype SetUp = NoThrow | NoWorker | NoTimer | NoWatchdog | NoPost

  /** What may happen to a client. Each callback names the search it was made for, which may
      have ended long ago. */
  datatype Event =
    | Solve(native: bool, actions: string, setUp: SetUp)
    | Replied(search: nat, update: Update)
    | Errored(search: nat)
    | TimedOut(search: nat)
    | Ticked(search: nat)
    | CancelAsked(throws: bool)
    | ResetAsked
    | RouteDropped

  /** One started search. */
  class Active {
    const native: bool
    const prefix: string
    var route: Option<string>
    /** Its pending handles; 0 before they are made. */
    var timer: nat
    var watchdog: nat
    /** Times its handles and its worker or request were let go. */
    ghost var releases: nat

    constructor (native: bool, prefix: string)
      ensures this.native == native && this.prefix == prefix && route.None? && timer == 0 && watchdog == 0
      ensures releases == 0
    {
      this.native, this.prefix, route, timer, watchdog, releases := native, prefix, None, 0, 0, 0;
    }
  }

  class SolverClient {
    /** Whether `prefix + route` replays to a solved puzzle. */
    const verify: (string, string) -> bool
    var state: ClientState
    /** Every search started: their callbacks may still arrive. */
    var searches: seq<Active>
    /** Timers set and not yet cleared, and the next handle. */
    var pending: set<nat>
    var nextTimer: nat
    /** Every prefix and route an update showed. */
    ghost var shown: seq<(string, Option<string>)>
    /** Every call and callback there was. */
    ghost var handled: seq<Event>

    predicate Checked(prefix: string, route: Option<string>) {
      route.Some? ==> |prefix| + |route.value| <= MAX_ROUTE && verify(prefix, route.value)
    }

    /** At most one search is live; every other was released exactly once; no timer outlives its
        search; and every route held or shown passed `verify` with its own prefix. */
    ghost predicate Valid()
      reads this, searches
    {
      && (forall i, j | 0 <= i < j < |searches| :: searches[i] != searches[j])
      && (forall a | a in searches :: a.releases == if state == Searching(a) then 0 else 1)
      && (state.Searching? ==>
        state.active in searches && pending <= {state.active.timer, state.active.watchdog} &&
          Checked(state.active.prefix, state.active.route))
      && (!state.Searching? ==> pending == {})
      && (state.Completed? ==> Checked(state.prefix, state.route))
      && (forall t | t in pending :: 0 < t < nextTimer) && 0 < nextTimer
      && (forall s | s in shown :: Checked(s.0, s.1))
    }

    /** The objects a callback may change: only the running search. */
    ghost function Current(): set<object>
      reads this
    {
      if state.Searching? then {state.active} else {}
    }

    constructor (verify: (string, string) -> bool)
      ensures Valid() && this.verify == verify && state == Idle && searches == [] && handled == []
    {
      this.verify := verify;
      state, searches, pending, nextTimer, shown, handled := Idle, [], {}, 1, [], [];
    }

    /** Lets the running search's handles go. */
    method Release(active: Active)
      requires Valid() && state == Searching(active)
      modifies this`pending, active`releases
      ensures pending == {} && active.releases == 1
    {
      pending := pending - {active.timer} - {active.watchdog};
      active.releases := active.releases + 1;
    }

    /** Back to idle, whatever was running released and nothing shown of it. */
    method Reset()
      requires Valid()
      modifies this`state, this`pending, Current()
      ensures Valid() && state == Idle
    {
      if state.Searching? { Release(state.active); }
      state := Idle;
    }

    /** A completed search keeps only its prefix; every other state stays as it is. */
    method DropRoute()
      requires Valid()
      modifies this`state
      ensures Valid() && state == if old(state).Completed? then Completed(old(state).prefix, None) else old(state)
    {
      if state.Completed? { state := Completed(state.prefix, None); }
    }

    /** Ends the search a callback was made for, if it is still the running one. */
    method Finish(active: Active)
      requires Valid() && active in searches
      modifies this`state, this`pending, Current()
      ensures Valid()
      ensures state == if old(state) != Searching(active) then old(state)
                       else Completed(active.prefix, old(active.route))
      ensures old(state) != Searching(active) ==> pending == old(pending)
      ensures active.route == old(active.route)
    {
      if state != Searching(active) { return; }
      Release(active);
      state := Completed(active.prefix, active.route);
    }

    /** The route a search holds once a reply's own is checked. */
    function Held(active: Active, update: Update): Option<string>
      reads active
    {
      if update.route.Some? then update.route else active.route
    }

    /** What a reply may claim: a route that replays and fits, and nothing that route belies. */
    predicate Honest(active: Active, update: Update)
      reads active
    {
      var route := Held(active, update);
      && Checked(active.prefix, update.route)
      && (update.solved ==> route.Some?) && (update.proof.UnsolvableProof? ==> route.None?)
      && (route.Some? && update.lowerBound.Some? ==> update.lowerBound.value <= |route.value|)
      && (update.done && (update.proof.OptimalProof? || update.proof.BoundedProof?) ==>
            update.best == if route.Some? then Some(|route.value|) else None)
    }

    /** Handles one reply of the search it came from: checks its route and claims, then shows
        it. False when a check throws. A reply of any other search changes nothing. */
    method Accept(active: Active, update: Update) returns (fine: bool)
      requires Valid() && active in searches
      modifies this`state, this`pending, this`shown, Current()
      ensures Valid()
      ensures old(state) == Searching(active) ==> (fine <==> old(Honest(active, update)))
      ensures old(state) == Searching(active) ==>
                active.route == if Checked(active.prefix, update.route) then old(Held(active, update))
                                else old(active.route)
      ensures old(state) == Searching(active) && update.route.Some? ==>
                if |active.prefix| + |update.route.value| <= MAX_ROUTE && verify(active.prefix, update.route.value)
                then active.route == update.route else !fine && active.route == old(active.route)
      ensures old(state) != Searching(active) ==> fine && state == old(state) && shown == old(shown)
      ensures old(state) != Searching(active) ==> pending == old(pending)
      ensures old(state) == Searching(active) && !fine ==> state == Searching(active) && shown == old(shown)
      ensures old(state) == Searching(active) && fine ==>
                var route := if update.route.Some? then update.route else old(active.route);
                && shown == old(shown) + [(active.prefix, route)]
                && state == (if update.done then Completed(active.prefix, route) else Searching(active))
                && (update.done && (update.proof.OptimalProof? || update.proof.BoundedProof?) ==>
                      update.best == if route.Some? then Some(|route.value|) else None)
                && (update.solved ==> route.Some?) && (update.proof.UnsolvableProof? ==> route.None?)
    {
      if state != Searching(active) { return true; }
      if update.route.Some? {
        if |active.prefix| + |update.route.value| > MAX_ROUTE || !verify(active.prefix, update.route.value) {
          return false;
        }
        active.route := update.route;
      }
      var route := active.route;
      if update.solved && route.None? { return false; }
      if update.proof.UnsolvableProof? && route.Some? { return false; }
      if route.Some? && update.lowerBound.Some? && update.lowerBound.value > |route.value| { return false; }
      var length := if route.Some? then Some(|route.value|) else None;
      if update.done && (update.proof.OptimalProof? || update.proof.BoundedProof?) && update.best != length {
        return false;
      }
      shown := shown + [(active.prefix, route)];
      if update.done { Finish(active); }
      return true;
    }

    /** A reply, an error or a deadline of some search. */
    method Reply(active: Active, update: Update)
      requires Valid() && active in searches
      modifies this`state, this`pending, this`shown, Current()
      ensures Valid()
      ensures old(state) != Searching(active) ==> state == old(state) && shown == old(shown) && pending == old(pending)
      ensures old(state) == Searching(active) && old(Honest(active, update)) ==>
                && shown == old(shown) + [(active.prefix, old(Held(active, update)))]
                && state == if update.done then Completed(active.prefix, old(Held(active, update)))
                            else Searching(active)
      ensures old(state) == Searching(active) && !old(Honest(active, update)) ==>
                && shown == old(shown)
                && state == Completed(active.prefix,
                              if Checked(active.prefix, update.route) then old(Held(active, update))
                              else old(active.route))
    {
      var fine := Accept(active, update);
      if !fine { Finish(active); }
    }

    method NewTimer() returns (t: nat)
      requires 0 < nextTimer
      modifies this`nextTimer, this`pending
      ensures t == old(nextTimer) && nextTimer == t + 1 && pending == old(pending) + {t}
    {
      t := nextTimer;
      nextTimer := nextTimer + 1;
      pending := pending + {t};
    }

    /** A second search is refused. `setUp` says where the set-up throws, if it does; the search
        then has completed with no route and nothing of it is left pending. */
    method Begin(native: bool, actions: string, setUp: SetUp)
      requires Valid()
      modifies this, Current()
      ensures Valid() && shown == old(shown) && handled == old(handled)
      ensures forall a | a in searches && a !in old(searches) :: fresh(a)
      ensures old(state).Searching? ==> state == old(state) && searches == old(searches)
      ensures !old(state).Searching? && setUp == NoWorker && !native ==> state == Completed(actions, None)
      ensures !old(state).Searching? && setUp == NoWorker && !native ==> searches == old(searches)
      ensures !old(state).Searching? && !(setUp == NoWorker && !native) ==>
                && |searches| == |old(searches)| + 1 && old(searches) <= searches
                && fresh(searches[|old(searches)|])
                && searches[|old(searches)|].native == native && searches[|old(searches)|].prefix == actions
                && searches[|old(searches)|].route.None?
                && (state.Searching? ==> pending == {state.active.timer, state.active.watchdog} &&
                                         state.active.timer != state.active.watchdog)
                && state == if setUp == NoThrow || setUp == NoWorker then Searching(searches[|old(searches)|])
                            else Completed(actions, None)
    {
      if state.Searching? { return; }
      Reset();
      if setUp == NoWorker && !native {
        state := Completed(actions, None);
        return;
      }
      var active := new Active(native, actions);
      searches := searches + [active];
      state := Searching(active);
      SetHandles(active, setUp);
    }

    /** Sets the new search's timer and watchdog; a throw on the way ends it. */
    method SetHandles(active: Active, setUp: SetUp)
      requires Valid() && state == Searching(active) && active.route.None? && active.timer == active.watchdog == 0
      requires pending == {}
      modifies this`state, this`pending, this`nextTimer, active
      ensures Valid()
      ensures state == if setUp == NoThrow || setUp == NoWorker then Searching(active)
                       else Completed(active.prefix, None)
      ensures active.route.None?
      ensures state.Searching? ==> pending == {active.timer, active.watchdog} && active.timer != active.watchdog
    {
      if setUp != NoTimer {
        active.timer := NewTimer();
        if setUp != NoWatchdog {
          active.watchdog := NewTimer();
          if setUp != NoPost { return; }
        }
      }
      Finish(active);
    }

    /** The user gives up: a native search is dropped at once; a browser one ends on its reply or
        at a new deadline, or now, its route kept, if asking it throws. */
    method Cancel(throws: bool)
      requires Valid()
      modifies this`state, this`pending, this`nextTimer, Current()
      ensures Valid()
      ensures !old(state).Searching? ==> state == old(state)
      ensures old(state).Searching? && old(state).active.native ==> state == Idle
      ensures old(state).Searching? && !old(state).active.native && !throws ==>
                state == old(state) && pending == old(pending - {state.active.watchdog}) + {state.active.watchdog}
      ensures old(state).Searching? && !old(state).active.native && throws ==>
                state == Completed(old(state).active.prefix, old(state.active.route)) && pending == {}
    {
      if !state.Searching? { return; }
      var active := state.active;
      if active.native {
        Reset();
      } else if throws {
        Finish(active);
      } else {
        pending := pending - {active.watchdog};
        active.watchdog := NewTimer();
      }
    }

    /** One call or callback; one for a search that no longer runs changes nothing. */
    method On(e: Event)
      requires Valid()
      modifies this, Current()
      ensures Valid() && forall a | a in searches && a !in old(searches) :: fresh(a)
      ensures handled == old(handled) + [e]
      ensures !e.Solve? ==> searches == old(searches)
      ensures e.Solve? && !old(state).Searching? && e.setUp == NoThrow ==>
                && state.Searching? && state.active !in old(searches) && state.active.native == e.native
                && state.active.prefix == e.actions && state.active.route.None?
      ensures e.ResetAsked? ==> state == Idle
      ensures e.RouteDropped? ==>
                state == if old(state).Completed? then Completed(old(state).prefix, None) else old(state)
      ensures (e.Errored? || e.TimedOut?) && e.search < |searches| && old(state) == Searching(searches[e.search]) ==>
                state == Completed(searches[e.search].prefix, old(searches[e.search].route))
      ensures e.Replied? && e.search < |searches| && old(state) == Searching(searches[e.search]) &&
              old(Honest(searches[e.search], e.update)) ==>
                var a, route := searches[e.search], old(Held(searches[e.search], e.update));
                && shown == old(shown) + [(a.prefix, route)]
                && state == if e.update.done then Completed(a.prefix, route) else Searching(a)
      ensures (e.Replied? || e.Errored? || e.TimedOut?) &&
              (e.search >= |searches| || old(state) != Searching(searches[e.search])) ==>
                state == old(state) && shown == old(shown) && pending == old(pending)
    {
      handled := handled + [e];
      match e
      case Solve(native, actions, setUp) => Begin(native, actions, setUp);
      case Replied(search, update) => if search < |searches| { Reply(searches[search], update); }
      case Errored(search) => if search < |searches| { Finish(searches[search]); }
      case TimedOut(search) => if search < |searches| { Finish(searches[search]); }
      case Ticked(search) =>
      case CancelAsked(throws) => Cancel(throws);
      case ResetAsked => Reset();
      case RouteDropped => DropRoute();
    }

    /** Every interleaving of calls and callbacks, those of ended searches included: at most one
        search is ever live, each is released exactly once, and no route is held or shown
        unchecked. */
    method Drive(events: seq<Event>)
      requires Valid() && searches == []
      modifies this
      ensures Valid() && handled == old(handled) + events
      ensures forall s | s in shown :: Checked(s.0, s.1)
      ensures forall a | a in searches :: a.releases == if state == Searching(a) then 0 else 1
    {
      for k := 0 to |events|
        invariant Valid() && handled == old(handled) + events[..k] && forall a | a in searches :: fresh(a)
      {
        On(events[k]);
      }
    }
  }
}
