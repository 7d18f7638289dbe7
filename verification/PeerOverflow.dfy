/** What becomes of a payload refused because the data queue is full, and of events in general. */
module PeerOverflow {
  import opened MachineTypes
  import opened PeerStream

  // ----- Events keep their order -----

  /** The event taken from the queue and waiting for earlier payloads to be returned. */
  function InHand(s: State): seq<Stamped> {
    if s.phase.Draining? || s.phase.Deciding? then [s.phase.e]
    else if s.terminal.Some? then [s.terminal.value]
    else []
  }

  /** The events that ended the stream, in order. */
  function Applied(log: seq<Entry>): seq<Stamped> {
    if log == [] then []
    else
      var last := log[|log| - 1].end;
      Applied(log[..|log| - 1]) + (if last.ByEvent? then [last.e] else [])
  }

  /** The error the ends recorded so far leave behind. */
  function ErrorAfter(log: seq<Entry>): Option<Failure> {
    if log == [] then None
    else
      var last, before := log[|log| - 1].end, ErrorAfter(log[..|log| - 1]);
      if last.ByEvent? then ErrorOf(last.e.event, before) else before
  }

  lemma LogSnoc(log: seq<Entry>, entry: Entry)
    ensures Applied(log + [entry]) == Applied(log) + (if entry.end.ByEvent? then [entry.end.e] else [])
    ensures ErrorAfter(log + [entry])
            == if entry.end.ByEvent? then ErrorOf(entry.end.e.event, ErrorAfter(log)) else ErrorAfter(log)
  {
    assert (log + [entry])[..|log|] == log;
  }

  /** Events filed are those applied, the one in hand and those queued, in order; the error is what was applied. */
  ghost predicate Conserved(s: State) {
    && s.filed == Applied(s.log) + InHand(s) + s.events
    && s.lastError == ErrorAfter(s.log)
  }

  lemma FileConserves(s: State, event: Event)
    requires Conserved(s)
    ensures Conserved(File(s, event))
  {
    hide Applied, ErrorAfter;
    var st := Stamped(event, |s.accepted|);
    assert Applied(s.log) + InHand(s) + (s.events + [st]) == (Applied(s.log) + InHand(s) + s.events) + [st];
  }

  /** Steps that touch neither the events nor the ends. */
  lemma UntouchedConserves(s: State, s': State)
    requires Conserved(s) && s'.filed == s.filed && s'.events == s.events && s'.log == s.log
    requires s'.lastError == s.lastError && InHand(s') == InHand(s)
    ensures Conserved(s')
  {
  }

  lemma EnvironmentConserves(s: State, a: Action)
    requires Conserved(s)
    ensures Conserved(Environment(s, a))
  {
    hide Conserved, File;
    match a
    case Arrive(payload) =>
      if s.dataOpen && s.eventOpen && |s.data| >= DATA_BOUND {
        FileConserves(s, QueueFull);
        UntouchedConserves(File(s, QueueFull), Environment(s, a));
      } else {
        UntouchedConserves(s, Environment(s, a));
      }
    case Shutdown => FileConserves(s, ShutdownWrite);
    case PeerClose(reason) => FileConserves(s, Close(reason));
    case _ => UntouchedConserves(s, Environment(s, a));
  }

  lemma FinishConserves(s: State, end: End)
    requires Conserved(s) && !end.ByEvent? && (s.phase == CheckClosed || s.phase == Waiting)
    ensures Conserved(Finish(s, end))
  {
    hide Applied, ErrorAfter;
    LogSnoc(s.log, Entry(end, |s.returned|));
    assert Applied(s.log) + [] == Applied(s.log);
  }

  /** Applying moves the event in hand to the end of those applied. */
  lemma ApplyConserves(s: State, s': State, e: Stamped)
    requires Conserved(s) && InHand(s) == [e] && InHand(s'.(phase := Idle)) == []
    requires s'.filed == s.filed && s'.events == s.events && s'.log == s.log && s'.lastError == s.lastError
    ensures Conserved(ApplyEvent(s', e))
  {
    hide Applied, ErrorAfter, ErrorOf;
    LogSnoc(s.log, Entry(ByEvent(e), |s'.returned|));
    assert Applied(s.log) + [e] + [] + s.events == Applied(s.log) + [e] + s.events;
  }

  lemma TakeConserves(s: State)
    requires Conserved(s) && PhaseInv(s) && s.phase == Waiting && s.events != []
    ensures Conserved(s.(events := s.events[1..], phase := Draining(s.events[0])))
  {
    hide Applied, ErrorAfter;
    assert s.events == [s.events[0]] + s.events[1..];
    assert Applied(s.log) + [] + s.events == Applied(s.log) + [s.events[0]] + s.events[1..];
  }

  lemma SelectConserves(s: State, b: Branch)
    requires Conserved(s) && PhaseInv(s) && s.phase == Waiting
    ensures Conserved(Select(s, b))
  {
    hide Conserved, Finish;
    match b
    case OnClosed => FinishConserves(s, ByClose);
    case OnData =>
      FinishConserves(s, ByDataEnd);
      if s.data != [] { UntouchedConserves(s, Select(s, b)); }
    case OnEvent =>
      FinishConserves(s, ByEventEnd);
      if s.events != [] { TakeConserves(s); }
    case Abandon => UntouchedConserves(s, Select(s, b));
  }

  lemma DecideConserves(s: State, b: Branch)
    requires Conserved(s) && PhaseInv(s) && s.phase.Deciding?
    ensures Conserved(Receive(s, b))
  {
    hide Conserved, ApplyEvent;
    if s.pending != [] { UntouchedConserves(s, Receive(s, b)); } else { ApplyConserves(s, s, s.phase.e); }
  }

  lemma TerminalConserves(s: State, b: Branch)
    requires Conserved(s) && s.phase == TakeTerminal
    ensures Conserved(Receive(s, b))
  {
    hide Conserved, ApplyEvent;
    if s.terminal.Some? {
      ApplyConserves(s, s.(terminal := None), s.terminal.value);
    } else {
      UntouchedConserves(s, Receive(s, b));
    }
  }

  lemma CloseConserves(s: State, b: Branch)
    requires Conserved(s) && s.phase == CheckClosed
    ensures Conserved(Receive(s, b))
  {
    hide Conserved, Finish;
    if s.closed { FinishConserves(s, ByClose); } else { UntouchedConserves(s, Receive(s, b)); }
  }

  lemma ReceiveConserves(s: State, b: Branch)
    requires Conserved(s) && PhaseInv(s)
    ensures Conserved(Receive(s, b))
  {
    hide Conserved, Select, Finish, ApplyEvent;
    var s' := Receive(s, b);
    match s.phase
    case Idle => UntouchedConserves(s, s');
    case TryData => UntouchedConserves(s, s');
    case TakeTerminal => TerminalConserves(s, b);
    case CheckClosed => CloseConserves(s, b);
    case Waiting => SelectConserves(s, b);
    case Draining(_) => UntouchedConserves(s, s');
    case Deciding(e) => DecideConserves(s, b);
  }

  /**
   * Over every run, events are applied in the order they were filed: those filed
   * are those applied, the one in hand and those queued, and the error reported
   * is what the applied ones leave.
   */
  lemma {:induction false} FiledUntilApplied(moves: seq<Move>, n: nat)
    requires n <= |moves|
    ensures Conserved(RunTo(moves, n))
  {
    hide Conserved, Inv, Environment, Receive;
    if n > 0 {
      FiledUntilApplied(moves, n - 1);
      var s := RunTo(moves, n - 1);
      match moves[n - 1]
      case Env(a) => EnvironmentConserves(s, a);
      case Turn(b) =>
        RunKeeps(moves, n - 1);
        PhaseFacts(s);
        ReceiveConserves(s, b);
    } else {
      StartConserves();
    }
  }

  lemma StartConserves()
    ensures Conserved(INIT)
  {
  }

  // ----- What the ends report -----

  /** Every event but an orderly end is an error. */
  predicate Loud(event: Event) {
    !(event.ShutdownWrite? || event == Close(Normal))
  }

  lemma {:induction false} ErrorIff(log: seq<Entry>)
    ensures ErrorAfter(log).Some? <==> exists e :: e in Applied(log) && Loud(e.event)
  {
    if log != [] {
      ErrorIff(log[..|log| - 1]);
      var last := log[|log| - 1].end;
      if last.ByEvent? && Loud(last.e.event) { assert last.e in Applied(log); }
    }
  }

  /** In every run an error is reported if and only if some event that ended the stream was not an orderly end. */
  lemma ErrorReportedIff(moves: seq<Move>, n: nat)
    requires n <= |moves|
    ensures
      var s := RunTo(moves, n);
      s.lastError.Some? <==> exists e :: e in Applied(s.log) && Loud(e.event)
  {
    hide RunTo;
    FiledUntilApplied(moves, n);
    ErrorIff(RunTo(moves, n).log);
  }

  /**
   * Callers stop at the first end. There an error is reported if and only if it
   * is an end by an event and the first event ever filed was not an orderly
   * end; and the overflow is reported if and only if that first event was filed
   * for a refused payload.
   */
  lemma FirstEndReports(moves: seq<Move>, n: nat)
    requires n <= |moves| && |RunTo(moves, n).log| == 1
    ensures
      var s := RunTo(moves, n);
      var byEvent := s.log[0].end.ByEvent?;
      && (byEvent ==> s.filed != [] && s.log[0].end.e == s.filed[0])
      && (s.lastError.Some? <==> byEvent && Loud(s.filed[0].event))
      && (s.lastError == Some(Overflowed) <==> byEvent && s.filed[0].event.QueueFull?)
  {
    hide RunTo;
    FiledUntilApplied(moves, n);
    var s := RunTo(moves, n);
    LogSnoc([], s.log[0]);
    assert s.log == [] + [s.log[0]];
    if s.log[0].end.ByEvent? {
      assert s.filed == [s.log[0].end.e] + InHand(s) + s.events;
    }
  }

  // ----- Which event is filed first -----

  /** The event a move asks to have filed. */
  ghost function Asks(s: State, m: Move): Option<Event> {
    if !m.Env? || !s.dataOpen || !s.eventOpen then None
    else
      match m.action
      case Arrive(_) => if |s.data| >= DATA_BOUND then Some(QueueFull) else None
      case Shutdown => Some(ShutdownWrite)
      case PeerClose(reason) => Some(Close(reason))
      case _ => None
  }

  lemma SelectFiles(s: State, b: Branch)
    ensures Select(s, b).filed == s.filed
  {
  }

  lemma ReceiveFiles(s: State, b: Branch)
    ensures Receive(s, b).filed == s.filed
  {
    hide ErrorOf, Select;
    SelectFiles(s, b);
  }

  lemma StepFiles(s: State, m: Move)
    ensures
      Step(s, m).filed
      == match Asks(s, m)
         case Some(event) => if |s.events| < EVENT_BOUND then s.filed + [Stamped(event, |s.accepted|)] else s.filed
         case None => s.filed
  {
    hide Receive;
    if m.Turn? { ReceiveFiles(s, m.branch); }
  }

  /** Move k is the first that asked for an event. */
  ghost predicate FirstAsk(moves: seq<Move>, k: nat, event: Event)
    requires k < |moves|
  {
    && Asks(RunTo(moves, k), moves[k]) == Some(event)
    && forall j :: 0 <= j < k ==> Asks(RunTo(moves, j), moves[j]) == None
  }

  /**
   * The first event ever asked for is always filed, whatever is dropped later:
   * nothing is filed if and only if no move asked, and otherwise the first event
   * filed is the one the first such move asked for.
   */
  lemma {:induction false} FirstFiledIsFirstAsked(moves: seq<Move>, n: nat)
    requires n <= |moves|
    ensures
      var filed := RunTo(moves, n).filed;
      && (filed == [] <==> forall j :: 0 <= j < n ==> Asks(RunTo(moves, j), moves[j]) == None)
      && (filed != [] ==> exists k :: 0 <= k < n && FirstAsk(moves, k, filed[0].event))
  {
    hide Step, Asks;
    if n > 0 {
      FirstFiledIsFirstAsked(moves, n - 1);
      var s := RunTo(moves, n - 1);
      StepFiles(s, moves[n - 1]);
      NothingFiledNothingQueued(moves, n - 1);
      var filed := RunTo(moves, n).filed;
      if s.filed == [] && Asks(s, moves[n - 1]).Some? {
        var event := Asks(s, moves[n - 1]).value;
        assert filed == [Stamped(event, |s.accepted|)] && filed[0].event == event;
        assert FirstAsk(moves, n - 1, event);
      } else if s.filed != [] {
        assert filed[0] == s.filed[0];
      }
    }
  }

  lemma NothingFiledNothingQueued(moves: seq<Move>, n: nat)
    requires n <= |moves|
    ensures RunTo(moves, n).filed == [] ==> RunTo(moves, n).events == []
  {
    hide RunTo;
    FiledUntilApplied(moves, n);
  }

  // ----- Silent losses -----

  lemma {:induction false} RunToPrefix(moves: seq<Move>, more: seq<Move>, n: nat)
    requires n <= |moves|
    ensures RunTo(moves + more, n) == RunTo(moves, n)
  {
    hide Step;
    if n > 0 { RunToPrefix(moves, more, n - 1); }
  }

  /** Where a list of moves leads. */
  ghost function End(moves: seq<Move>): State { RunTo(moves, |moves|) }

  lemma EndSnoc(moves: seq<Move>, m: Move)
    ensures End(moves + [m]) == Step(End(moves), m)
  {
    hide Step;
    RunToPrefix(moves, [m], |moves|);
  }

  function Copies<T>(x: T, n: nat): (s: seq<T>)
    ensures |s| == n
  {
    if n == 0 then [] else Copies(x, n - 1) + [x]
  }

  lemma {:induction false} HeadOfCopies<T>(x: T, n: nat)
    requires n > 0
    ensures Copies(x, n)[0] == x && Copies(x, n)[1..] == Copies(x, n - 1)
  {
    if n > 1 { HeadOfCopies(x, n - 1); }
  }

  const SHUTDOWN := Stamped(ShutdownWrite, 0)

  lemma {:induction false} Shutdowns(n: nat) returns (moves: seq<Move>)
    requires n <= EVENT_BOUND
    ensures End(moves) == INIT.(events := Copies(SHUTDOWN, n), filed := Copies(SHUTDOWN, n))
  {
    moves := [];
    if n > 0 {
      var before := Shutdowns(n - 1);
      EndSnoc(before, Env(Shutdown));
      moves := before + [Env(Shutdown)];
    }
  }

  lemma {:induction false} Arrivals(p: Payload, ends: nat, n: nat) returns (moves: seq<Move>)
    requires ends <= EVENT_BOUND && n <= DATA_BOUND
    ensures End(moves) == INIT.(events := Copies(SHUTDOWN, ends), filed := Copies(SHUTDOWN, ends),
                                data := Copies(p, n), accepted := Copies(p, n))
  {
    if n == 0 {
      moves := Shutdowns(ends);
    } else {
      hide Copies;
      var before := Arrivals(p, ends, n - 1);
      EndSnoc(before, Env(Arrive(p)));
      moves := before + [Env(Arrive(p))];
      CopiesStep(p, n);
    }
  }

  lemma CopiesStep<T>(x: T, n: nat)
    requires n > 0
    ensures Copies(x, n) == Copies(x, n - 1) + [x]
  {
  }

  /** The event queue after the refusal: the complaint is last, if there was room for it. */
  function Queue(ends: nat): seq<Stamped> {
    Copies(SHUTDOWN, ends) + (if ends < EVENT_BOUND then [Stamped(QueueFull, DATA_BOUND)] else [])
  }

  /** One payload was refused behind `ends` shutdowns, and `left` payloads are still to be read. */
  function Lost(p: Payload, ends: nat, left: nat): State
    requires left <= DATA_BOUND
  {
    INIT.(events := Queue(ends), filed := Queue(ends), data := Copies(p, left),
          accepted := Copies(p, DATA_BOUND), returned := Copies(p, DATA_BOUND - left), refused := 1)
  }

  lemma RefusedOnce(p: Payload, ends: nat) returns (moves: seq<Move>)
    requires ends <= EVENT_BOUND
    ensures End(moves) == Lost(p, ends, DATA_BOUND)
  {
    hide Copies;
    var before := Arrivals(p, ends, DATA_BOUND);
    EndSnoc(before, Env(Arrive(p)));
    moves := before + [Env(Arrive(p))];
    assert Copies(p, 0) == [];
    assert ends == EVENT_BOUND ==> Copies(SHUTDOWN, ends) + [] == Copies(SHUTDOWN, ends);
  }

  lemma {:induction false} ReadsOn(p: Payload, ends: nat, left: nat) returns (moves: seq<Move>)
    requires ends <= EVENT_BOUND && left <= DATA_BOUND
    ensures End(moves) == Lost(p, ends, left)
    decreases DATA_BOUND - left
  {
    if left == DATA_BOUND {
      moves := RefusedOnce(p, ends);
    } else {
      hide Copies, Queue;
      var before := ReadsOn(p, ends, left + 1);
      EndSnoc(before, Turn(OnEvent));
      EndSnoc(before + [Turn(OnEvent)], Turn(OnEvent));
      moves := before + [Turn(OnEvent)] + [Turn(OnEvent)];
      HeadOfCopies(p, left + 1);
      CopiesStep(p, DATA_BOUND - left);
    }
  }

  lemma IdleTurns(s: State, b: Branch)
    requires s.phase == Idle && s.pending == [] && s.data == [] && s.terminal == None && !s.closed
    ensures Receive(Receive(Receive(Receive(s, b), b), b), b) == s.(phase := Waiting, polled := |s.accepted|)
  {
    hide Select, Finish, ApplyEvent, Return;
    var s1 := Receive(s, b);
    assert s1 == s.(phase := TryData);
    var s2 := Receive(s1, b);
    assert s2 == s.(phase := TakeTerminal, polled := |s.accepted|);
    assert Receive(s2, b) == s2.(phase := CheckClosed);
  }

  lemma EventTurns(s: State, b: Branch)
    requires s.phase == Waiting && b == OnEvent && s.events != [] && s.pending == [] && s.data == []
    ensures Receive(Receive(Receive(s, b), b), b) == ApplyEvent(s.(events := s.events[1..]), s.events[0])
  {
    hide Return, ErrorOf;
    var s1 := Receive(s, b);
    assert s1 == s.(events := s.events[1..], phase := Draining(s.events[0]));
    assert Receive(s1, b) == s1.(phase := Deciding(s.events[0]));
  }

  lemma ThreeTurns(moves: seq<Move>, b: Branch)
    ensures
      var t := Turn(b);
      End(moves + [t] + [t] + [t]) == Receive(Receive(Receive(End(moves), b), b), b)
  {
    hide Receive;
    EndSnoc(moves, Turn(b));
    EndSnoc(moves + [Turn(b)], Turn(b));
    EndSnoc(moves + [Turn(b)] + [Turn(b)], Turn(b));
  }

  /**
   * Runs with a silent loss, for every number of shutdowns from one, which leaves
   * room for the complaint, to sixteen, which leaves none: a payload is refused,
   * and the stream ends normally, without an error.
   */
  lemma SilentLoss(p: Payload, ends: nat) returns (moves: seq<Move>)
    requires 1 <= ends <= EVENT_BOUND
    ensures
      var s := End(moves);
      && s.refused == 1 && s.lastError == None && s.returned == s.accepted
      && s.log == [Entry(ByEvent(SHUTDOWN), DATA_BOUND)]
      && (Stamped(QueueFull, DATA_BOUND) in s.filed <==> ends < EVENT_BOUND)
  {
    hide Copies, Receive, End;
    var t := Turn(OnEvent);
    var drained := ReadsOn(p, ends, 0);
    assert Copies(p, 0) == [];
    IdleTurns(Lost(p, ends, 0), OnEvent);
    ThreeTurns(drained, OnEvent);
    var checked := drained + [t] + [t] + [t];
    EndSnoc(checked, t);
    var waiting := checked + [t];
    HeadOfCopies(SHUTDOWN, ends);
    assert Queue(ends)[0] == SHUTDOWN;
    EventTurns(End(waiting), OnEvent);
    ThreeTurns(waiting, OnEvent);
    moves := waiting + [t] + [t] + [t];
    OnlyShutdowns(ends);
  }

  lemma {:induction false} OnlyShutdowns(ends: nat)
    ensures Stamped(QueueFull, DATA_BOUND) !in Copies(SHUTDOWN, ends)
  {
    if ends > 0 { OnlyShutdowns(ends - 1); }
  }
}
