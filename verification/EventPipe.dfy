/** The event list, the pipes and the input thread of `event.c`: the thread lists an event and
    sends a byte for it; its last byte is EVENT_EXIT, at which the handler is to find the list
    empty. The main thread lists events too, when a listener leaves and others stay. */
module EventPipe {
  import opened Options

  datatype Item = Item(slot: int, at: real)

  /** A byte of `evt_pipe`. */
  datatype Mark = CH | EXIT

  /** Where the input thread is: an item is listed and its byte owed, or EXIT is sent and not
      read yet. */
  datatype Thread = NoThread | Collecting | Listing | Ended

  /** Where the main thread is: outside, between an item it lists and the byte for it, or
      waiting for the thread. */
  datatype Main = Free | Pushing | Joining

  /** `stops` is the number of bytes in `tcb_pipe`; `installed` tells whether `event_handler` is
      set, `activated` is `event_handler_activated`. */
  datatype Line = Line(
    items: seq<Item>, pipe: seq<Mark>, stops: nat, thread: Thread, main: Main, installed: bool, activated: bool)
  {
    predicate Runs() {
      thread == Collecting || thread == Listing
    }
  }

  datatype Step =
    | Collected(item: Item)      // the thread lists an event
    | Signalled                  // and sends its byte
    | Finished(asked: bool)      // it sends EXIT, asked to stop or because its input failed
    | Started                    // event_activate_thread
    | Pushed(item: Item)         // the main thread lists an event
    | Flagged                    // and sends its byte
    | Stopped                    // event_deactivate_thread asks the thread to stop
    | Joined                     // and has seen it end
    | Read                       // event_read_cb takes one byte

  const IDLE := Line([], [], 0, NoThread, Free, false, false)

  function Rest<T>(s: seq<T>): seq<T> {
    if s == [] then [] else s[1..]
  }

  function Apply(s: Line, step: Step): Option<Line> {
    match step
    case Collected(item) =>
      if s.thread == Collecting then Some(s.(items := s.items + [item], thread := Listing)) else None
    case Signalled =>
      if s.thread == Listing then Some(s.(pipe := s.pipe + [CH], thread := Collecting)) else None
    case Finished(asked) =>
      if s.thread == Collecting && (asked ==> s.stops > 0)
      then Some(s.(pipe := s.pipe + [EXIT], thread := Ended, stops := if asked then s.stops - 1 else s.stops))
      else None
    case Started =>
      if s.main == Free && !s.installed && s.items == []
      then Some(s.(thread := Collecting, installed := true, activated := true))
      else None
    case Pushed(item) =>
      if s.main == Free && s.activated then Some(s.(items := s.items + [item], main := Pushing)) else None
    case Flagged =>
      if s.main == Pushing then Some(s.(pipe := s.pipe + [CH], main := Free)) else None
    case Stopped =>
      if s.main == Free && s.activated then Some(s.(stops := s.stops + 1, main := Joining)) else None
    case Joined =>
      if s.main == Joining && !s.Runs() then Some(s.(main := Free, activated := false)) else None
    case Read =>
      if s.main == Free && s.installed && s.pipe != [] then Some(AfterByte(s)) else None
  }

  /** EXIT with an empty list takes the handler away; with anything listed it is treated like
      the byte of an event. */
  function AfterByte(s: Line): Line
    requires s.pipe != []
  {
    if s.pipe[0] == EXIT && s.items == [] then s.(pipe := s.pipe[1..], thread := NoThread, installed := false)
    else s.(pipe := s.pipe[1..], items := Rest(s.items),
            thread := if s.pipe[0] == EXIT then NoThread else s.thread)
  }

  function Run(steps: seq<Step>): Option<Line>
    decreases |steps|
  {
    if steps == [] then Some(IDLE)
    else match Run(steps[..|steps| - 1])
      case Some(s) => Apply(s, steps[|steps| - 1])
      case None => None
  }

  // ---------------------------------------------------------------- bytes and items

  function Bytes(pipe: seq<Mark>): nat {
    if pipe == [] then 0 else Bytes(pipe[1..]) + if pipe[0] == CH then 1 else 0
  }

  /** The bytes of events in the pipe and on their way to it. */
  function Due(s: Line): nat {
    Bytes(s.pipe) + (if s.thread == Listing then 1 else 0) + (if s.main == Pushing then 1 else 0)
  }

  /** Everything in the pipe is an event, but for one EXIT when the thread has ended. */
  ghost predicate PipeOk(s: Line) {
    if s.thread == Ended then exists k :: 0 <= k < |s.pipe| && OnlyExitAt(s.pipe, k) else EXIT !in s.pipe
  }

  ghost predicate OnlyExitAt(pipe: seq<Mark>, k: nat)
    requires k < |pipe|
  {
    pipe[k] == EXIT && forall j :: 0 <= j < |pipe| && j != k ==> pipe[j] == CH
  }

  /** A handler nobody takes away any more: its thread is gone and its EXIT has been read. */
  predicate Orphaned(s: Line) {
    s.installed && s.thread == NoThread
  }

  /** One byte for every item; only an orphaned handler may have one byte more. */
  ghost predicate Inv(s: Line) {
    && PipeOk(s) && (s.thread != NoThread ==> s.installed)
    && |s.items| <= Due(s) <= |s.items| + 1
    && (!Orphaned(s) ==> Due(s) == |s.items|)
  }

  lemma {:induction false} BytesAppend(pipe: seq<Mark>, m: Mark)
    ensures Bytes(pipe + [m]) == Bytes(pipe) + if m == CH then 1 else 0
  {
    if pipe == [] {
      assert pipe + [m] == [m];
    } else {
      assert (pipe + [m])[1..] == pipe[1..] + [m];
      BytesAppend(pipe[1..], m);
    }
  }

  lemma {:induction false} NoBytes(pipe: seq<Mark>)
    ensures Bytes(pipe) == 0 <==> CH !in pipe
  {
    if pipe != [] {
      NoBytes(pipe[1..]);
    }
  }

  lemma ExitSent(s: Line, t: Line)
    requires EXIT !in s.pipe && t.pipe == s.pipe + [EXIT] && t.thread == Ended
    ensures PipeOk(t)
  {
    assert forall j :: 0 <= j < |s.pipe| ==> s.pipe[j] in s.pipe;
    assert OnlyExitAt(t.pipe, |s.pipe|);
  }

  lemma ByteSent(s: Line, t: Line)
    requires PipeOk(s) && t.pipe == s.pipe + [CH] && (t.thread == Ended <==> s.thread == Ended)
    ensures PipeOk(t)
  {
    if s.thread == Ended {
      var k :| 0 <= k < |s.pipe| && OnlyExitAt(s.pipe, k);
      assert OnlyExitAt(t.pipe, k);
    }
  }

  lemma ByteTaken(s: Line)
    requires PipeOk(s) && s.pipe != []
    ensures PipeOk(AfterByte(s))
    ensures s.pipe[0] == EXIT ==> s.thread == Ended
  {
    var t := AfterByte(s);
    assert s.pipe[0] in s.pipe;
    if s.thread == Ended {
      var k :| 0 <= k < |s.pipe| && OnlyExitAt(s.pipe, k);
      if k > 0 {
        assert OnlyExitAt(t.pipe, k - 1);
      }
    }
  }

  lemma StepKeepsInv(s: Line, step: Step)
    requires Inv(s) && Apply(s, step).Some?
    ensures Inv(Apply(s, step).value)
  {
    var t := Apply(s, step).value;
    match step
    case Signalled =>
      BytesAppend(s.pipe, CH);
      ByteSent(s, t);
    case Flagged =>
      BytesAppend(s.pipe, CH);
      ByteSent(s, t);
    case Finished(_) =>
      BytesAppend(s.pipe, EXIT);
      ExitSent(s, t);
    case Read =>
      ByteTaken(s);
    case _ =>
  }

  // ---------------------------------------------------------------- late events

  /** A thread has been started and has not sent its EXIT. */
  predicate Running(steps: seq<Step>)
    decreases |steps|
  {
    steps != []
    && var last := steps[|steps| - 1];
       last.Started? || (!last.Finished? && Running(steps[..|steps| - 1]))
  }

  /** The main thread has sent the byte of an event when there was no thread, or behind the
      EXIT of the one there was. */
  predicate Late(steps: seq<Step>)
    decreases |steps|
  {
    steps != []
    && var before := steps[..|steps| - 1];
       Late(before) || (steps[|steps| - 1].Flagged? && !Running(before))
  }

  /** EXIT has an event behind it, or has been read with one listed; or an event is listed and
      nobody reads the pipe. */
  predicate Doomed(s: Line) {
    || (s.thread == Ended && s.pipe != [] && s.pipe[|s.pipe| - 1] == CH)
    || (s.thread == NoThread && (s.installed || s.pipe != []))
  }

  /** EXIT at the head of the pipe: the list is empty unless there is a byte behind it. */
  lemma AtExit(s: Line)
    requires Inv(s) && s.main == Free && s.pipe != [] && s.pipe[0] == EXIT
    ensures s.items == [] <==> s.pipe == [EXIT]
    ensures s.items == [] <==> !Doomed(s)
  {
    ByteTaken(s);
    var k :| 0 <= k < |s.pipe| && OnlyExitAt(s.pipe, k);
    assert k == 0;
    NoBytes(s.pipe);
    if |s.pipe| > 1 {
      assert s.pipe[1] in s.pipe;
    }
  }

  lemma NothingDue(s: Line)
    requires Inv(s) && s.main == Free && !s.installed && s.items == []
    ensures s.pipe == []
  {
    NoBytes(s.pipe);
    assert forall j :: 0 <= j < |s.pipe| ==> s.pipe[j] in s.pipe;
  }

  lemma StepDooms(s: Line, step: Step)
    requires Inv(s) && Apply(s, step).Some?
    ensures var t := Apply(s, step).value;
            && (t.Runs() <==> step.Started? || (!step.Finished? && s.Runs()))
            && (Doomed(t) <==> Doomed(s) || (step.Flagged? && !s.Runs()))
            && (step.Started? ==> !Doomed(s))
  {
    match step
    case Started =>
      NothingDue(s);
    case Read =>
      ByteTaken(s);
      if s.pipe[0] == EXIT {
        AtExit(s);
      } else if s.thread == Ended {
        var k :| 0 <= k < |s.pipe| && OnlyExitAt(s.pipe, k);
        assert k > 0;
      }
    case _ =>
  }

  /** Whatever the threads do: one byte an item, and the handler is doomed exactly when an event
      has been sent late. */
  lemma {:induction false} RunKeepsInv(steps: seq<Step>)
    requires Run(steps).Some?
    ensures var s := Run(steps).value;
            Inv(s) && (Running(steps) <==> s.Runs()) && (Late(steps) <==> Doomed(s))
    decreases |steps|
  {
    if steps != [] {
      var before := steps[..|steps| - 1];
      RunKeepsInv(before);
      StepKeepsInv(Run(before).value, steps[|steps| - 1]);
      StepDooms(Run(before).value, steps[|steps| - 1]);
    } else {
      assert Bytes([]) == 0;
    }
  }

  /** EVENT_EXIT finds the event list empty if and only if no event has been sent late. */
  lemma ExitFindsNothing(steps: seq<Step>)
    requires Run(steps).Some?
    ensures var s := Run(steps).value;
            s.main == Free && s.pipe != [] && s.pipe[0] == EXIT ==> (s.items == [] <==> !Late(steps))
  {
    RunKeepsInv(steps);
    var s := Run(steps).value;
    if s.main == Free && s.pipe != [] && s.pipe[0] == EXIT {
      AtExit(s);
    }
  }

  /** And unless one has been, the byte of an event finds an event. */
  lemma ByteFindsItem(steps: seq<Step>)
    requires Run(steps).Some?
    ensures var s := Run(steps).value; s.pipe != [] && s.pipe[0] == CH && !Late(steps) ==> s.items != []
  {
    RunKeepsInv(steps);
  }

  lemma {:induction false} RunOfPrefix(steps: seq<Step>, k: nat)
    requires k <= |steps| && Run(steps).Some?
    ensures Run(steps[..k]).Some? && (Late(steps[..k]) ==> Late(steps))
    decreases |steps|
  {
    if k == |steps| {
      assert steps[..k] == steps;
    } else {
      var before := steps[..|steps| - 1];
      RunOfPrefix(before, k);
      assert before[..k] == steps[..k];
    }
  }

  /** After that no thread is started any more. */
  lemma NeverStartedAgain(steps: seq<Step>, k: nat)
    requires k < |steps| && Run(steps).Some? && steps[k].Started?
    ensures !Late(steps[..k])
  {
    RunOfPrefix(steps, k);
    RunOfPrefix(steps, k + 1);
    var upto := steps[..k + 1];
    assert upto[..|upto| - 1] == steps[..k];
    RunKeepsInv(steps[..k]);
    StepDooms(Run(steps[..k]).value, steps[k]);
  }

  // ---------------------------------------------------------------- events in order

  /** The events listed by the two threads. */
  function ListedBy(steps: seq<Step>): seq<Item>
    decreases |steps|
  {
    if steps == [] then []
    else
      var last := steps[|steps| - 1];
      ListedBy(steps[..|steps| - 1]) + if last.Collected? || last.Pushed? then [last.item] else []
  }

  /** The events taken with the bytes read: each time the first of the list, if there is one. */
  function TakenBy(steps: seq<Step>): seq<Item>
    requires Run(steps).Some?
    decreases |steps|
  {
    if steps == [] then []
    else
      var before, last := steps[..|steps| - 1], steps[|steps| - 1];
      TakenBy(before) +
        if last.Read? && Run(before).value.items != [] then [Run(before).value.items[0]] else []
  }

  lemma FirstIsTaken(taken: seq<Item>, items: seq<Item>)
    requires items != []
    ensures taken + [items[0]] + items[1..] == taken + items
  {
  }

  /** Over any run events are taken in the order in which they were listed, and none is lost. */
  lemma {:induction false} TakenInOrder(steps: seq<Step>)
    requires Run(steps).Some?
    ensures TakenBy(steps) + Run(steps).value.items == ListedBy(steps)
    decreases |steps|
  {
    if steps != [] {
      var before, last := steps[..|steps| - 1], steps[|steps| - 1];
      TakenInOrder(before);
      var s := Run(before).value;
      if last.Read? && s.items != [] {
        FirstIsTaken(TakenBy(before), s.items);
      }
      ListedNext(TakenBy(before), s.items, if last.Collected? || last.Pushed? then [last.item] else []);
    }
  }

  lemma ListedNext(taken: seq<Item>, items: seq<Item>, more: seq<Item>)
    ensures taken + (items + more) == taken + items + more && taken + [] == taken && items + [] == items
  {
  }

  // ---------------------------------------------------------------- a thread that ends when asked

  /** While nobody waits for it the thread runs, if activated, and is not asked to stop. */
  predicate Obedient(s: Line) {
    && (s.main == Joining ==> s.stops == if s.Runs() then 1 else 0)
    && (s.main != Joining ==> s.stops == 0 && (s.activated ==> s.Runs()))
    && (s.main == Pushing ==> s.activated)
  }

  lemma {:induction false} AskedIsObedient(steps: seq<Step>)
    requires Run(steps).Some? && Finished(false) !in steps
    ensures Obedient(Run(steps).value) && !Late(steps)
    decreases |steps|
  {
    if steps != [] {
      var before, last := steps[..|steps| - 1], steps[|steps| - 1];
      assert last in steps;
      AskedIsObedient(before);
      RunKeepsInv(before);
      if last == Read {
        ByteTaken(Run(before).value);
      }
    }
  }

  /** So EVENT_EXIT always finds the list empty when the thread ends only because it is asked
      to. When it ends by itself, one listener that leaves meanwhile is enough. */
  lemma FailedInputDooms(item: Item)
    ensures var steps := [Started, Finished(false), Pushed(item), Flagged];
            && Run(steps) == Some(Line([item], [EXIT, CH], 0, Ended, Free, true, true))
            && Late(steps)
            && Run(steps + [Read]) == Some(Line([], [CH], 0, NoThread, Free, true, true))
  {
    var started := [] + [Started];
    var ended := started + [Finished(false)];
    var listed := ended + [Pushed(item)];
    var sent := listed + [Flagged];
    RunNext([], Started);
    RunNext(started, Finished(false));
    RunNext(ended, Pushed(item));
    RunNext(listed, Flagged);
    RunNext(sent, Read);
    assert Run(sent).value.items == [item] && Run(sent).value.pipe == [EXIT, CH];
    assert Run(sent + [Read]).value.pipe == [CH] && Run(sent + [Read]).value.items == [];
    assert sent == [Started, Finished(false), Pushed(item), Flagged];
  }

  lemma RunNext(steps: seq<Step>, step: Step)
    requires Run(steps).Some?
    ensures Run(steps + [step]) == Apply(Run(steps).value, step)
    ensures Late(steps + [step]) <==> Late(steps) || (step.Flagged? && !Running(steps))
  {
    assert (steps + [step])[..|steps|] == steps;
  }
}
