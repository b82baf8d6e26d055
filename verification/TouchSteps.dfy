/** The functions of `event.c` on values: the listeners ever registered, which of them are in
    the two lists, what each has been told, and the steps the threads have taken. What the
    callbacks answer is an argument. */
module TouchSteps {
  import opened Gestures

  type Id = nat

  datatype Key = Key(callback: nat, cbdata: nat)

  /** `struct event_listener`, with everything its callback has been told, whether that has
      returned a negative value, whether it was told ERROR, and what has happened to the
      listener while it was listed. */
  datatype Entry = Entry(
    key: Key, slot: int, tv: real, state: State, prev: State, unsetDone: bool,
    trace: seq<Event>, refused: bool, dropped: bool, inputs: seq<Input>)
  {
    function Now(): Snapshot { Snapshot(state, prev, trace) }

    function Past(): Snapshot { History(tv, inputs) }

    predicate Active() { state == ACTIVATE || state == ACTIVATED }
  }

  function NewEntry(key: Key, slot: int, tv: real): Entry {
    Entry(key, slot, tv, ACTIVATE, DEACTIVATED, false, [], false, false, [])
  }

  // ---------------------------------------------------------------- one listener

  /** What a callback does: the time it is called at, and whether it returns a negative value. */
  datatype Answer = Answer(now: real, refuses: bool)

  /** What is left when a listener has been dealt with: whether it is gone, the time stamp of
      the event, and the answers of the callbacks still to come. Callbacks without an answer
      accept at once. */
  datatype Heard = Heard(e: Entry, gone: bool, time: real, left: seq<Answer>)

  /** `invoke_event_cb`. Without the events' own time (`exact`) the event gets the time of the
      call. */
  function Invoked(e: Entry, time: real, answers: seq<Answer>, exact: bool): Heard
    requires e.state == ACTIVATE || e.state == ACTIVATED || e.state == DEACTIVATE
  {
    var told := e.(trace := e.trace + [EventOf(e.state)]);
    if answers == [] then Heard(told, false, time, [])
    else
      Heard(told.(refused := answers[0].refuses), answers[0].refuses,
            if exact then time else answers[0].now, answers[1..])
  }

  /** How many rounds `clear_listener` still takes; from DEACTIVATE it may step back to
      ACTIVATE first. */
  function Rounds(e: Entry): nat {
    match e.state
    case ACTIVATE => 3
    case ACTIVATED => 2
    case DEACTIVATE => if e.prev == ACTIVATE then 4 else 1
    case _ => 0
  }

  /** What a round of `clear_listener` makes of the state, before and behind the callback. */
  function RoundStart(e: Entry): Entry {
    if e.state == DEACTIVATE && e.prev == ACTIVATE then e.(state := ACTIVATE) else e
  }

  function NextState(s: State): State {
    if s == ACTIVATE then ACTIVATED else if s == ACTIVATED then DEACTIVATE else DEACTIVATED
  }

  predicate Speaks(e: Entry) {
    e.state == ACTIVATE || e.state == ACTIVATED || e.state == DEACTIVATE
  }

  /** The listener goes on to `next`, unless its callback has refused. */
  function Moved(h: Heard, prev: State, next: State): Heard {
    if h.gone then h else h.(e := h.e.(prev := prev, state := next))
  }

  /** One round of it. */
  function Round(e: Entry, time: real, answers: seq<Answer>): Heard
    requires Speaks(e)
  {
    var start := RoundStart(e);
    Moved(Invoked(start, time, answers, true), start.state, NextState(start.state))
  }

  /** `clear_listener`. The event it makes up is not the one being dispatched. */
  function Cleared(e: Entry, time: real, answers: seq<Answer>): (h: Heard)
    ensures h.gone && h.time == time
    decreases Rounds(e)
  {
    if !Speaks(e) then Heard(e, true, time, answers)
    else
      var h := Round(e, time, answers);
      if h.gone then h else Cleared(h.e, time, h.left)
  }

  /** The switch of `event_read_cb` for a listener in the slot of the event. */
  function Touched(e: Entry, at: real, answers: seq<Answer>, exact: bool): Heard {
    var seen := e.(inputs := e.inputs + [Touch(at)]);
    match e.state
    case ACTIVATE =>
      if e.tv > at then Heard(seen, false, at, answers)
      else Moved(Invoked(seen, at, answers, exact), ACTIVATE, ACTIVATED)
    case ACTIVATED =>
      if e.tv > at then Heard(seen, false, at, answers)
      else Moved(Invoked(seen, at, answers, exact), ACTIVATED, ACTIVATED)
    case DEACTIVATE =>
      if e.tv >= at then Heard(seen, false, at, answers)
      else if e.unsetDone then Cleared(e, at, answers)
      else
        var again := seen.(prev := DEACTIVATE, state := if e.prev == ACTIVATE then ACTIVATE else ACTIVATED);
        Moved(Invoked(again, at, answers, exact), ACTIVATED, DEACTIVATE)
    case _ => Heard(e, true, at, answers)
  }

  /** A listener in the list: it has been told what its inputs ask for. */
  ghost predicate Live(e: Entry) {
    !e.refused && !e.dropped && e.Now() == e.Past()
  }

  /** One that has left it: it has been told the rest as well, or part of it when its callback
      refused. One told ERROR has been told nothing else. */
  ghost predicate Over(e: Entry) {
    if e.dropped then !e.refused && e.trace == [] && e.inputs == []
    else
      var all := e.Past().trace + Closing(e.Past().state, e.Past().prev);
      e.trace <= all && (e.refused || e.trace == all)
  }

  /** The same listener, later: what it was told and what happened to it is only added to. */
  ghost predicate Follows(e: Entry, f: Entry) {
    && f.key == e.key && f.slot == e.slot && f.tv == e.tv
    && e.trace <= f.trace && e.inputs <= f.inputs
  }

  /** What is told in one round is the first part of what is due. */
  lemma RoundIsDue(e: Entry)
    requires Consistent(e.Now())
    ensures var start := RoundStart(e);
            && Speaks(start) && [EventOf(start.state)] <= Closing(e.state, e.prev)
            && [EventOf(start.state)] + Closing(NextState(start.state), start.state) == Closing(e.state, e.prev)
  {
  }

  lemma Regroup(t: seq<Event>, x: Event, rest: seq<Event>)
    ensures (t + [x]) + rest == t + ([x] + rest) && t + [x] <= t + ([x] + rest)
  {
  }

  /** A listener is told one thing more and goes on. */
  lemma RoundGoesOn(e: Entry)
    requires Consistent(e.Now())
    ensures var start := RoundStart(e); var t := e.trace + [EventOf(start.state)];
            && t <= e.trace + Closing(e.state, e.prev)
            && t + Closing(NextState(start.state), start.state) == e.trace + Closing(e.state, e.prev)
            && (NextState(start.state) != DEACTIVATED ==> Consistent(Snapshot(NextState(start.state), start.state, t)))
  {
    var start := RoundStart(e);
    RoundIsDue(e);
    Extend(e.trace, EventOf(start.state));
    Regroup(e.trace, EventOf(start.state), Closing(NextState(start.state), start.state));
  }

  /** `h` has been told what `clear_listener` owes `e`, or part of it when its callback
      refused. */
  ghost predicate Closes(e: Entry, h: Entry) {
    && Follows(e, h) && h.inputs == e.inputs && h.dropped == e.dropped && h.trace <= e.trace + Closing(e.state, e.prev)
    && (h.refused || h.trace == e.trace + Closing(e.state, e.prev))
  }

  /** One round. */
  lemma RoundCloses(e: Entry, time: real, answers: seq<Answer>)
    requires Consistent(e.Now()) && !e.refused
    ensures var h := Round(e, time, answers);
            if h.gone then Closes(e, h.e)
            else
              && Follows(e, h.e) && h.e.inputs == e.inputs && h.e.dropped == e.dropped && !h.e.refused
              && h.e.trace + Closing(h.e.state, h.e.prev) == e.trace + Closing(e.state, e.prev)
              && (if h.e.state == DEACTIVATED then !Speaks(h.e) else Consistent(h.e.Now()))
  {
    RoundGoesOn(e);
  }

  lemma ClosesOn(e: Entry, next: Entry, h: Entry)
    requires Follows(e, next) && next.inputs == e.inputs && next.dropped == e.dropped && Closes(next, h)
    requires next.trace + Closing(next.state, next.prev) == e.trace + Closing(e.state, e.prev)
    ensures Closes(e, h)
  {
  }

  lemma {:induction false} ClearedCloses(e: Entry, time: real, answers: seq<Answer>)
    requires Consistent(e.Now()) && !e.refused
    ensures Closes(e, Cleared(e, time, answers).e)
    decreases Rounds(e)
  {
    var h := Round(e, time, answers);
    RoundCloses(e, time, answers);
    if !h.gone {
      if h.e.state == DEACTIVATED {
        assert h.e.trace + [] == h.e.trace;
      } else {
        ClearedCloses(h.e, time, h.left);
        ClosesOn(e, h.e, Cleared(h.e, time, h.left).e);
      }
    }
  }

  /** A listener that is told something in an event. */
  lemma ToldKeeps(e: Entry, at: real, h: Heard)
    requires Live(e) && Tells(e, at, h)
    ensures if h.gone then Over(h.e) else Live(h.e)
  {
    HistoryNext(e.tv, e.inputs, Touch(at));
  }

  /** The listener has been told what the gesture asks for. */
  ghost predicate Tells(e: Entry, at: real, h: Heard) {
    var s := After(e.Now(), e.tv, Touch(at));
    && Follows(e, h.e) && h.e.inputs == e.inputs + [Touch(at)] && h.gone == h.e.refused
    && h.e.dropped == e.dropped && h.e.trace == s.trace && (!h.gone ==> h.e.Now() == s)
  }

  lemma NewIsTold(e: Entry, at: real, answers: seq<Answer>, exact: bool)
    requires Consistent(e.Now()) && !e.refused && e.state == ACTIVATE
    ensures Tells(e, at, Touched(e, at, answers, exact)) && (exact ==> Touched(e, at, answers, exact).time == at)
  {
  }

  lemma ActiveIsTold(e: Entry, at: real, answers: seq<Answer>, exact: bool)
    requires Consistent(e.Now()) && !e.refused && e.state == ACTIVATED
    ensures Tells(e, at, Touched(e, at, answers, exact)) && (exact ==> Touched(e, at, answers, exact).time == at)
  {
  }

  lemma LeavingIsTold(e: Entry, at: real, answers: seq<Answer>, exact: bool)
    requires Consistent(e.Now()) && !e.refused && e.state == DEACTIVATE && !(e.unsetDone && e.tv < at)
    ensures Tells(e, at, Touched(e, at, answers, exact)) && (exact ==> Touched(e, at, answers, exact).time == at)
  {
  }

  /** What an event makes of a listener in the list. */
  lemma TouchedKeeps(e: Entry, at: real, answers: seq<Answer>, exact: bool)
    requires Live(e)
    ensures var h := Touched(e, at, answers, exact);
            && Follows(e, h.e) && (if h.gone then Over(h.e) else Live(h.e))
            && (!h.gone && !e.Active() ==> !h.e.Active())
            && h.e.dropped == e.dropped && (exact ==> h.time == at)
  {
    HistoryIsGesture(e.tv, e.inputs);
    if e.state == DEACTIVATE && e.unsetDone && e.tv < at {
      ClearedCloses(e, at, answers);
    } else {
      if e.state == ACTIVATE {
        NewIsTold(e, at, answers, exact);
      } else if e.state == ACTIVATED {
        ActiveIsTold(e, at, answers, exact);
      } else {
        LeavingIsTold(e, at, answers, exact);
      }
      ToldKeeps(e, at, Touched(e, at, answers, exact));
    }
  }

  lemma ClearedIsOver(e: Entry, time: real, answers: seq<Answer>)
    requires Live(e)
    ensures var h := Cleared(e, time, answers); Follows(e, h.e) && Over(h.e) && h.e.dropped == e.dropped
  {
    HistoryIsGesture(e.tv, e.inputs);
    ClearedCloses(e, time, answers);
  }
}
