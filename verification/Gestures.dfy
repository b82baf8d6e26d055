/** What a touch listener is told: DOWN, then MOVEs, then UP, whatever the order of input, time
    stamps and deactivations. */
module Gestures {

  datatype State = DEACTIVATED | ACTIVATE | ACTIVATED | DEACTIVATE | ERROR

  /** What a callback invoked in state ACTIVATE, ACTIVATED or DEACTIVATE means to its owner. */
  datatype Event = DOWN | MOVE | UP

  function EventOf(s: State): Event
    requires s == ACTIVATE || s == ACTIVATED || s == DEACTIVATE
  {
    if s == ACTIVATE then DOWN else if s == ACTIVATED then MOVE else UP
  }

  /** The beginning of a DOWN MOVE* UP. */
  ghost predicate Gesture(t: seq<Event>) {
    && (t != [] ==> t[0] == DOWN)
    && (forall i :: 1 <= i < |t| - 1 ==> t[i] == MOVE)
    && (|t| > 1 ==> t[|t| - 1] == MOVE || t[|t| - 1] == UP)
  }

  /** All of it. */
  ghost predicate Complete(t: seq<Event>) {
    Gesture(t) && t != [] && t[|t| - 1] == UP
  }

  /** DOWN MOVE*, or nothing yet. */
  ghost predicate Unfinished(t: seq<Event>) {
    Gesture(t) && UP !in t
  }

  lemma Extend(t: seq<Event>, e: Event)
    requires Unfinished(t)
    ensures t == [] && e == DOWN ==> Unfinished(t + [e])
    ensures t != [] && e == MOVE ==> Unfinished(t + [e])
    ensures t != [] && e == UP ==> Complete(t + [e])
  {
    var u := t + [e];
    assert forall i :: 0 <= i < |t| ==> u[i] == t[i] && t[i] in t;
    if t != [] {
      forall i | 1 <= i < |u| - 1 ensures u[i] == MOVE {
        assert u[i] == t[i];
      }
    }
  }

  /** What `clear_listener` still tells it: the missing part of its gesture. */
  function Closing(s: State, prev: State): seq<Event> {
    match s
    case ACTIVATE => [DOWN, MOVE, UP]
    case ACTIVATED => [MOVE, UP]
    case DEACTIVATE => if prev == ACTIVATE then [DOWN, MOVE, UP] else [UP]
    case _ => []
  }

  /** A listener as a value. */
  datatype Snapshot = Snapshot(state: State, prev: State, trace: seq<Event>)

  /** What can happen to it while it is listed: an event of its slot, stamped `at`, or the
      deactivation by its owner. */
  datatype Input = Touch(at: real) | Leave

  function After(s: Snapshot, tv: real, i: Input): Snapshot {
    match i
    case Touch(at) =>
      if s.state == ACTIVATE && tv <= at then Snapshot(ACTIVATED, ACTIVATE, s.trace + [DOWN])
      else if s.state == ACTIVATED && tv <= at then Snapshot(ACTIVATED, ACTIVATED, s.trace + [MOVE])
      else if s.state == DEACTIVATE && tv < at then
        Snapshot(DEACTIVATE, ACTIVATED, s.trace + if s.prev == ACTIVATE then [DOWN] else [MOVE])
      else s
    case Leave =>
      if s.state == ACTIVATE || s.state == ACTIVATED then Snapshot(DEACTIVATE, s.state, s.trace) else s
  }

  const REGISTERED := Snapshot(ACTIVATE, DEACTIVATED, [])

  function History(tv: real, inputs: seq<Input>): Snapshot {
    if inputs == [] then REGISTERED else After(History(tv, inputs[..|inputs| - 1]), tv, inputs[|inputs| - 1])
  }

  /** The gesture is not finished, the state tells whether it has begun, and so does the
      previous state of a listener being deactivated. */
  ghost predicate Consistent(s: Snapshot) {
    && Unfinished(s.trace)
    && (s.state == ACTIVATE || s.state == ACTIVATED || s.state == DEACTIVATE)
    && (s.state == ACTIVATE ==> s.trace == [])
    && (s.state == ACTIVATED ==> s.trace != [])
    && (s.state == DEACTIVATE ==>
          (s.prev == ACTIVATE || s.prev == ACTIVATED) && (s.prev == ACTIVATE <==> s.trace == []))
  }

  lemma AfterIsConsistent(s: Snapshot, tv: real, i: Input)
    requires Consistent(s)
    ensures Consistent(After(s, tv, i))
  {
    Extend(s.trace, DOWN);
    Extend(s.trace, MOVE);
  }

  /** Whatever events and deactivations come, stamped as they may be: a listener has been
      told DOWN MOVE* or nothing, being deactivated with previous state ACTIVATE means that
      DOWN was not sent yet, and what `clear_listener` adds makes the gesture complete. */
  lemma {:induction false} HistoryIsGesture(tv: real, inputs: seq<Input>)
    ensures var s := History(tv, inputs);
            && Unfinished(s.trace)
            && (s.state == DEACTIVATE ==> (s.prev == ACTIVATE <==> s.trace == []))
            && Complete(s.trace + Closing(s.state, s.prev))
    ensures Consistent(History(tv, inputs))
    decreases |inputs|
  {
    if inputs != [] {
      var before := inputs[..|inputs| - 1];
      HistoryIsGesture(tv, before);
      AfterIsConsistent(History(tv, before), tv, inputs[|inputs| - 1]);
    }
    ClosingCompletes(History(tv, inputs));
  }

  lemma ClosingCompletes(s: Snapshot)
    requires Consistent(s)
    ensures Complete(s.trace + Closing(s.state, s.prev))
  {
    var t := s.trace;
    if t == [] {
      Extend([], DOWN);
      Extend([DOWN], MOVE);
      Extend([DOWN, MOVE], UP);
      assert [] + [DOWN] == [DOWN] && [DOWN] + [MOVE] == [DOWN, MOVE] && [DOWN, MOVE] + [UP] == [DOWN, MOVE, UP];
      assert t + [DOWN, MOVE, UP] == [DOWN, MOVE, UP];
    } else {
      Extend(t, MOVE);
      Extend(t, UP);
      Extend(t + [MOVE], UP);
      assert t + [MOVE] + [UP] == t + [MOVE, UP];
    }
  }

  lemma HistoryNext(tv: real, inputs: seq<Input>, i: Input)
    ensures History(tv, inputs + [i]) == After(History(tv, inputs), tv, i)
  {
    assert (inputs + [i])[..|inputs|] == inputs;
  }

  lemma BeginningOfGesture(t: seq<Event>, u: seq<Event>)
    requires Gesture(t) && u <= t
    ensures Gesture(u)
  {
  }
}
