/**
 One resolver pass at a time within an instance (`#onPoll`, `resolveNow`, `start` and `stop` in
 src/navigator.ts): the flags are checked and set between two awaits, so every stretch of code between
 them is one step.
 */
module NavigatorPasses {
  /** `passes` holds the polls and calls that are in `#resolve`, `waiting` the `resolveNow` calls that are not yet. */
  datatype State = State(stopped: bool, stopping: bool, working: bool, passes: set<nat>, waiting: set<nat>)

  datatype Step =
    | Start
    | Stop
    | Poll(id: nat)
    | CallResolve(id: nat)
    | ResolveTurn(id: nat)
    | Finish(id: nat)

  function Init(): State
  {
    State(true, false, false, {}, {})
  }

  predicate Enabled(s: State, step: Step)
  {
    match step
    case Start => true
    case Stop => true
    case Poll(id) => id !in s.passes + s.waiting
    case CallResolve(id) => id !in s.passes + s.waiting
    case ResolveTurn(id) => id in s.waiting
    case Finish(id) => id in s.passes
  }

  function Apply(s: State, step: Step): State
  {
    match step
    case Start => if s.stopped then s.(stopped := false, stopping := false) else s
    case Stop => if s.stopped then s else s.(stopped := true, stopping := true)
    case Poll(id) => if s.stopped || s.working then s else s.(working := true, passes := s.passes + {id})
    case CallResolve(id) => s.(waiting := s.waiting + {id})
    case ResolveTurn(id) =>
      if s.working then s
      else if s.stopping then s.(waiting := s.waiting - {id})
      else s.(working := true, waiting := s.waiting - {id}, passes := s.passes + {id})
    case Finish(id) => s.(working := false, passes := s.passes - {id})
  }

  /** The class itself, one method for each stretch of code between two awaits. */
  class Navigator {
    var stopped: bool
    var stopping: bool
    var working: bool
    ghost var passes: set<nat>
    ghost var waiting: set<nat>

    ghost function Value(): State
      reads this
    {
      State(stopped, stopping, working, passes, waiting)
    }

    constructor ()
      ensures Value() == Init() && Inv(Value())
    {
      stopped, stopping, working, passes, waiting := true, false, false, {}, {};
    }

    method Start()
      modifies this`stopped, this`stopping
      ensures Value() == Apply(old(Value()), Step.Start)
      ensures !stopped && (old(stopped) ==> !stopping)
    {
      if !stopped {
        return;
      }
      stopped, stopping := false, false;
    }

    method Stop()
      modifies this`stopped, this`stopping
      ensures Value() == Apply(old(Value()), Step.Stop)
      ensures stopped && (!old(stopped) ==> stopping)
    {
      if stopped {
        return;
      }
      stopping, stopped := true, true;
    }

    method OnPoll(ghost id: nat) returns (entered: bool)
      requires Inv(Value()) && Enabled(Value(), Poll(id))
      modifies this`working, this`passes
      ensures Value() == Apply(old(Value()), Poll(id)) && Inv(Value())
      ensures entered <==> !stopped && old(passes) == {}
      ensures entered <==> passes == {id}
    {
      if stopped || working {
        return false;
      }
      working, entered := true, true;
      passes := passes + {id};
    }

    /** After each wait, and before the first. */
    method ResolveNowTurn(ghost id: nat) returns (entered: bool, waits: bool)
      requires Inv(Value()) && Enabled(Value(), ResolveTurn(id))
      modifies this`working, this`passes, this`waiting
      ensures Value() == Apply(old(Value()), ResolveTurn(id)) && Inv(Value())
      ensures entered <==> !stopping && old(passes) == {}
      ensures entered <==> passes == {id}
      ensures waits <==> old(passes) != {}
      ensures waits <==> id in waiting
    {
      entered, waits := false, false;
      if working {
        return false, true;
      }
      waiting := waiting - {id};
      if stopping {
        return;
      }
      working, entered := true, true;
      passes := passes + {id};
    }
  }

  // ---- Over any interleaving -------------------------------------------------------------------

  /** The flag is up exactly while a pass runs, and never more than one does. */
  ghost predicate Inv(s: State)
  {
    && (s.working <==> s.passes != {})
    && (forall a, b | a in s.passes && b in s.passes :: a == b)
    && (s.stopping ==> s.stopped)
    && s.passes !! s.waiting
  }

  ghost predicate Runs(s: State, steps: seq<Step>, t: State)
    decreases |steps|
  {
    if steps == [] then s == t
    else Enabled(s, steps[0]) && Runs(Apply(s, steps[0]), steps[1..], t)
  }

  lemma {:induction false} AtMostOnePass(s: State, steps: seq<Step>, t: State)
    requires Inv(s) && Runs(s, steps, t)
    ensures Inv(t)
    decreases |steps|
  {
    if steps != [] {
      AtMostOnePass(Apply(s, steps[0]), steps[1..], t);
    }
  }

  /** A call waits from the moment it is made, and until its turn no other step takes it off the list. */
  lemma CallWaits(s: State, id: nat, step: Step)
    requires Enabled(s, CallResolve(id))
    ensures id in Apply(s, CallResolve(id)).waiting && Apply(s, CallResolve(id)).passes == s.passes
    ensures id in s.waiting && Enabled(s, step) && step != ResolveTurn(id) ==> id in Apply(s, step).waiting
  {
  }

  /** When a pass ends the next may begin: a poll if started, and a waiting call unless stopping. */
  lemma PassEndsNextBegins(s: State, id: nat, next: nat)
    requires Inv(s) && id in s.passes
    ensures var t := Apply(s, Finish(id));
      && Enabled(s, Finish(id)) && t.passes == {} && t.waiting == s.waiting
      && (!s.stopped && next !in s.waiting ==> Enabled(t, Poll(next)) && Apply(t, Poll(next)).passes == {next})
      && (!s.stopping && next in s.waiting ==>
          Enabled(t, ResolveTurn(next)) && Apply(t, ResolveTurn(next)).passes == {next})
  {
    assert forall a | a in s.passes :: a == id;
  }

  /** Once `stop()` has seen no pass running, none runs again before the next `start()`. */
  lemma {:induction false} StoppedStaysQuiet(s: State, steps: seq<Step>, t: State)
    requires Inv(s) && s.stopping && !s.working && Runs(s, steps, t) && Start !in steps
    ensures t.stopping && t.passes == {}
    decreases |steps|
  {
    if steps != [] {
      StoppedStaysQuiet(Apply(s, steps[0]), steps[1..], t);
    }
  }
}
