/**
 * Why a receive call returns what it returns: every end and every payload is
 * traced to the moves that caused it, and a call that has something to return
 * returns it in at most two turns.
 */
module PeerCauses {
  import opened MachineTypes
  import opened PeerStream
  import opened PeerOverflow

  ghost predicate Happened(moves: seq<Move>, n: nat, a: Action)
    requires n <= |moves|
  {
    exists m :: 0 <= m < n && moves[m] == Env(a)
  }

  lemma HappenedStep(moves: seq<Move>, n: nat, a: Action)
    requires n < |moves|
    ensures Happened(moves, n + 1, a) <==> Happened(moves, n, a) || moves[n] == Env(a)
  {
    if moves[n] == Env(a) { assert Happened(moves, n + 1, a); }
  }

  lemma RunStep(moves: seq<Move>, n: nat)
    requires n < |moves|
    ensures RunTo(moves, n + 1) == Step(RunTo(moves, n), moves[n])
  {
  }

  // ----- The flags say what happened -----

  ghost predicate FlagsMatch(moves: seq<Move>, n: nat, s: State)
    requires n <= |moves|
  {
    && (s.closed <==> Happened(moves, n, SetClosed)) && (s.senderGone <==> Happened(moves, n, DropSender))
    && (s.dataOpen <==> !Happened(moves, n, DropData)) && (s.eventOpen <==> !Happened(moves, n, DropEvents))
  }

  /** What only the environment changes. */
  ghost predicate SameOutside(s: State, s': State) {
    && s'.closed == s.closed && s'.senderGone == s.senderGone && s'.dataOpen == s.dataOpen
    && s'.eventOpen == s.eventOpen && s'.filed == s.filed && s'.accepted == s.accepted
  }

  /** What one turn of the receiver brings: an end, a payload, or neither. */
  datatype Result = Result(end: Option<End>, payload: Option<Payload>)

  const NOTHING := Result(None, None)

  function OfSelect(s: State, b: Branch): Result {
    match b
    case OnClosed => Result(if s.closed || s.senderGone then Some(ByClose) else None, None)
    case OnData =>
      if s.data != [] then Result(None, Some(s.data[0])) else Result(if s.dataOpen then None else Some(ByDataEnd), None)
    case OnEvent => Result(if s.events != [] || s.eventOpen then None else Some(ByEventEnd), None)
    case Abandon => NOTHING
  }

  function OfTurn(s: State, b: Branch): Result {
    match s.phase
    case Idle => Result(None, if s.pending != [] then Some(s.pending[0]) else None)
    case TryData => Result(None, if s.data != [] then Some(s.data[0]) else None)
    case TakeTerminal => Result(if s.terminal.Some? then Some(ByEvent(s.terminal.value)) else None, None)
    case CheckClosed => Result(if s.closed then Some(ByClose) else None, None)
    case Waiting => OfSelect(s, b)
    case Draining(_) => NOTHING
    case Deciding(e) =>
      if s.pending != [] then Result(None, Some(s.pending[0])) else Result(Some(ByEvent(e)), None)
  }

  /** The result is recorded, the call is over if there is one, and the queues only shrink. */
  ghost predicate Brings(s: State, s': State, r: Result) {
    && SameOutside(s, s') && |s'.data| <= |s.data| && |s'.events| <= |s.events|
    && s'.returned == s.returned + (if r.payload.Some? then [r.payload.value] else [])
    && s'.log == s.log + (if r.end.Some? then [Entry(r.end.value, |s.returned|)] else [])
    && (r != NOTHING ==> s'.phase == Idle)
  }

  lemma SelectBrings(s: State, b: Branch)
    requires s.phase == Waiting
    ensures Brings(s, Receive(s, b), OfTurn(s, b))
  {
    match b
    case OnClosed =>
    case OnData =>
    case OnEvent =>
    case Abandon =>
  }

  lemma QueueTurnBrings(s: State, b: Branch)
    requires s.phase == Idle || s.phase == TryData || s.phase.Draining?
    ensures Brings(s, Receive(s, b), OfTurn(s, b))
  {
  }

  lemma CheckBrings(s: State, b: Branch)
    requires s.phase == TakeTerminal || s.phase == CheckClosed
    ensures Brings(s, Receive(s, b), OfTurn(s, b))
  {
    hide ErrorOf;
  }

  lemma DecideBrings(s: State, b: Branch)
    requires s.phase.Deciding?
    ensures Brings(s, Receive(s, b), OfTurn(s, b))
  {
    hide ErrorOf;
  }

  lemma TurnBrings(s: State, b: Branch)
    ensures Brings(s, Receive(s, b), OfTurn(s, b))
  {
    hide Brings, Receive, OfTurn;
    match s.phase
    case Waiting => SelectBrings(s, b);
    case TakeTerminal => CheckBrings(s, b);
    case CheckClosed => CheckBrings(s, b);
    case Deciding(_) => DecideBrings(s, b);
    case _ => QueueTurnBrings(s, b);
  }

  lemma ActionSetsFlags(s: State, a: Action)
    ensures
      var s' := Environment(s, a);
      && (s'.closed <==> s.closed || a == SetClosed) && (s'.senderGone <==> s.senderGone || a == DropSender)
      && (s'.dataOpen <==> s.dataOpen && a != DropData) && (s'.eventOpen <==> s.eventOpen && a != DropEvents)
  {
  }

  lemma NothingHappened(moves: seq<Move>)
    ensures FlagsMatch(moves, 0, INIT)
  {
    assert forall a :: !Happened(moves, 0, a);
  }

  lemma {:induction false} FlagsMean(moves: seq<Move>, n: nat)
    requires n <= |moves|
    ensures FlagsMatch(moves, n, RunTo(moves, n))
  {
    hide FlagsMatch, Receive, Environment;
    if n == 0 {
      NothingHappened(moves);
    } else {
      FlagsMean(moves, n - 1);
      RunStep(moves, n - 1);
      var s := RunTo(moves, n - 1);
      hide RunTo;
      match moves[n - 1]
      case Env(a) => ActionMatches(moves, n - 1, s, a);
      case Turn(b) => TurnMatches(moves, n - 1, s, b);
    }
  }

  lemma HappenedAll(moves: seq<Move>, n: nat)
    requires n < |moves|
    ensures forall a :: Happened(moves, n + 1, a) <==> Happened(moves, n, a) || moves[n] == Env(a)
  {
    forall a ensures Happened(moves, n + 1, a) <==> Happened(moves, n, a) || moves[n] == Env(a) {
      HappenedStep(moves, n, a);
    }
  }

  lemma ActionMatches(moves: seq<Move>, n: nat, s: State, a: Action)
    requires n < |moves| && moves[n] == Env(a) && FlagsMatch(moves, n, s)
    ensures FlagsMatch(moves, n + 1, Environment(s, a))
  {
    hide Happened, Environment;
    HappenedAll(moves, n);
    ActionSetsFlags(s, a);
  }

  lemma TurnMatches(moves: seq<Move>, n: nat, s: State, b: Branch)
    requires n < |moves| && moves[n] == Turn(b) && FlagsMatch(moves, n, s)
    ensures FlagsMatch(moves, n + 1, Receive(s, b))
  {
    hide Happened, Receive;
    HappenedAll(moves, n);
    TurnBrings(s, b);
  }

  // ----- When a call ends, and when it returns a payload -----

  /** The receiver has an end before it: by a held or drained event, a flag, or a queue closed and empty. */
  ghost predicate EndsNow(moves: seq<Move>, n: nat, s: State, b: Branch)
    requires n <= |moves|
  {
    || (s.phase == TakeTerminal && s.terminal.Some?)
    || (s.phase.Deciding? && s.pending == [])
    || (s.phase == CheckClosed && Happened(moves, n, SetClosed))
    || (s.phase == Waiting && b == OnClosed && (Happened(moves, n, SetClosed) || Happened(moves, n, DropSender)))
    || (s.phase == Waiting && b == OnData && s.data == [] && Happened(moves, n, DropData))
    || (s.phase == Waiting && b == OnEvent && s.events == [] && Happened(moves, n, DropEvents))
  }

  ghost predicate ReturnsNow(s: State, b: Branch) {
    || (s.phase == Idle && s.pending != [])
    || (s.phase == TryData && s.data != [])
    || (s.phase == Waiting && b == OnData && s.data != [])
    || (s.phase.Deciding? && s.pending != [])
  }

  /** How a turn changes the record of ends. */
  ghost predicate LogGrows(s: State, s': State, ends: bool) {
    if ends then
      s'.phase == Idle && |s'.log| == |s.log| + 1 && s'.log[..|s.log|] == s.log
      && s'.log[|s.log|].count == |s.returned|
    else s'.log == s.log
  }

  lemma TurnEnds(moves: seq<Move>, n: nat, s: State, b: Branch)
    requires n <= |moves| && FlagsMatch(moves, n, s)
    ensures LogGrows(s, Receive(s, b), EndsNow(moves, n, s, b))
  {
    hide Happened, Receive;
    TurnBrings(s, b);
  }

  /** The payload a returning turn takes. */
  function Next(s: State): Option<Payload> {
    if s.pending != [] then Some(s.pending[0]) else if s.data != [] then Some(s.data[0]) else None
  }

  lemma NextIsNextAccepted(s: State)
    requires Inv(s)
    ensures Next(s).Some? <==> |s.returned| < |s.accepted|
    ensures Next(s).Some? ==> Next(s).value == s.accepted[|s.returned|]
  {
  }

  lemma TurnReturns(s: State, b: Branch)
    requires PhaseInv(s)
    ensures ReturnsNow(s, b) ==> Next(s).Some?
    ensures Receive(s, b).returned == s.returned + (if ReturnsNow(s, b) then [Next(s).value] else [])
  {
    hide Receive;
    TurnBrings(s, b);
  }

  lemma ActionKeepsResults(s: State, a: Action)
    ensures
      var s' := Environment(s, a);
      && s'.log == s.log && s'.returned == s.returned && s'.pending == s.pending && s'.phase == s.phase
      && s'.terminal == s.terminal && s'.lastError == s.lastError && s.data <= s'.data && s.accepted <= s'.accepted
  {
  }

  /**
   * In every run a move ends the call if and only if it is a turn with an end
   * before it, and it returns a payload if and only if it is a turn with one in
   * reach; the payload is then the next one accepted.
   */
  lemma OutcomeIff(moves: seq<Move>, n: nat)
    requires n < |moves|
    ensures
      var s, s' := RunTo(moves, n), RunTo(moves, n + 1);
      && (s'.log != s.log <==> moves[n].Turn? && EndsNow(moves, n, s, moves[n].branch))
      && (s'.returned != s.returned <==> moves[n].Turn? && ReturnsNow(s, moves[n].branch))
      && (s'.returned != s.returned ==>
            |s.returned| < |s.accepted| && s'.returned == s.returned + [s.accepted[|s.returned|]])
  {
    hide Receive, Environment, Inv, EndsNow, ReturnsNow, Next, FlagsMatch;
    FlagsMean(moves, n);
    RunKeeps(moves, n);
    var s := RunTo(moves, n);
    match moves[n]
    case Env(a) => ActionKeepsResults(s, a);
    case Turn(b) =>
      TurnEnds(moves, n, s, b);
      PhaseFacts(s);
      TurnReturns(s, b);
      NextIsNextAccepted(s);
  }

  // ----- Progress -----

  ghost predicate Quiet(moves: seq<Move>, lo: nat, hi: nat)
    requires hi <= |moves|
  {
    forall m :: lo <= m < hi ==> moves[m].Env?
  }

  /** The call stays where it is, and the queue only grows. */
  ghost predicate Waits(s: State, s': State) {
    && s'.returned == s.returned && s'.pending == s.pending && s'.phase == s.phase
    && s.data <= s'.data && s.accepted <= s'.accepted
  }

  lemma WaitsOn(s: State, mid: State, a: Action)
    requires Waits(s, mid)
    ensures Waits(s, Environment(mid, a))
  {
    hide Environment;
    ActionKeepsResults(mid, a);
  }

  lemma {:induction false} QuietKeeps(moves: seq<Move>, n: nat, m: nat)
    requires n <= m <= |moves| && Quiet(moves, n, m)
    ensures Waits(RunTo(moves, n), RunTo(moves, m))
    decreases m
  {
    hide RunTo, Environment, Receive;
    if n < m {
      QuietKeeps(moves, n, m - 1);
      assert moves[m - 1].Env?;
      RunStep(moves, m - 1);
      hide Waits;
      WaitsOn(RunTo(moves, n), RunTo(moves, m - 1), moves[m - 1].action);
    }
  }

  lemma FirstTurn(s: State, b: Branch)
    requires s.phase == Idle && s.pending == []
    ensures Receive(s, b) == s.(phase := TryData)
  {
  }

  lemma InReach(s: State)
    requires Inv(s) && |s.returned| < |s.accepted|
    ensures s.pending != [] || s.data != []
  {
  }

  /**
   * A call that begins while something accepted has not been returned returns
   * the next payload by its second turn, whatever the driver does in between.
   */
  lemma ReturnsInTwoTurns(moves: seq<Move>, n: nat, a: nat, b: nat)
    requires n <= a < b < |moves| && moves[a].Turn? && moves[b].Turn?
    requires Quiet(moves, n, a) && Quiet(moves, a + 1, b)
    requires RunTo(moves, n).phase == Idle && |RunTo(moves, n).returned| < |RunTo(moves, n).accepted|
    ensures
      var s, s' := RunTo(moves, n), RunTo(moves, b + 1);
      |s'.returned| > |s.returned| && s'.returned[|s.returned|] == s.accepted[|s.returned|]
  {
    hide Environment, Receive, Inv, EndsNow, Quiet;
    RunKeeps(moves, n);
    InReach(RunTo(moves, n));
    QuietKeeps(moves, n, a);
    QuietKeeps(moves, a + 1, b);
    OutcomeIff(moves, a);
    OutcomeIff(moves, b);
    if RunTo(moves, n).pending == [] { FirstTurn(RunTo(moves, a), moves[a].branch); }
  }

  // ----- Every end has its cause among the moves -----

  /** Move m asked for this event, at this place among the payloads. */
  ghost predicate AsksFor(moves: seq<Move>, m: nat, e: Stamped)
    requires m < |moves|
  {
    && e.before == |RunTo(moves, m).accepted|
    && match e.event
       case ShutdownWrite => moves[m] == Env(Shutdown)
       case Close(reason) => moves[m] == Env(PeerClose(reason))
       case QueueFull => moves[m].Env? && moves[m].action.Arrive? && |RunTo(moves, m).data| >= 256
  }

  ghost predicate Asked(moves: seq<Move>, n: nat, e: Stamped)
    requires n <= |moves|
  {
    exists m :: 0 <= m < n && AsksFor(moves, m, e)
  }

  lemma ActionFiles(s: State, a: Action)
    ensures
      var s' := Environment(s, a);
      && s.filed <= s'.filed && |s'.filed| <= |s.filed| + 1
      && (|s'.filed| == |s.filed| + 1 ==>
            var e := s'.filed[|s.filed|];
            && e.before == |s.accepted|
            && match e.event
               case ShutdownWrite => a == Shutdown
               case Close(reason) => a == PeerClose(reason)
               case QueueFull => a.Arrive? && |s.data| >= 256)
  {
  }

  lemma {:induction false} FiledWasAsked(moves: seq<Move>, n: nat, i: nat)
    requires n <= |moves| && i < |RunTo(moves, n).filed|
    ensures Asked(moves, n, RunTo(moves, n).filed[i])
  {
    if n > 0 {
      hide Environment, Receive, AsksFor;
      var s, s' := RunTo(moves, n - 1), RunTo(moves, n);
      match moves[n - 1] {
        case Turn(b) => TurnBrings(s, b);
        case Env(a) => ActionFiles(s, a);
      }
      if i < |s.filed| {
        FiledWasAsked(moves, n - 1, i);
      } else {
        LastFiledAsked(moves, n - 1);
        assert AsksFor(moves, n - 1, s'.filed[i]);
      }
    }
  }

  lemma LastFiledAsked(moves: seq<Move>, m: nat)
    requires m < |moves|
    ensures
      var s, s' := RunTo(moves, m), RunTo(moves, m + 1);
      && |s'.filed| <= |s.filed| + 1
      && (|s'.filed| == |s.filed| + 1 ==> AsksFor(moves, m, s'.filed[|s.filed|]))
  {
    hide Environment, Receive;
    match moves[m]
    case Turn(b) => TurnBrings(RunTo(moves, m), b);
    case Env(a) => ActionFiles(RunTo(moves, m), a);
  }

  /** What has to have happened before a call ends this way. */
  ghost predicate Caused(moves: seq<Move>, n: nat, end: End)
    requires n <= |moves|
  {
    match end
    case ByEvent(e) => Asked(moves, n, e)
    case ByClose => Happened(moves, n, SetClosed) || Happened(moves, n, DropSender)
    case ByDataEnd => Happened(moves, n, DropData)
    case ByEventEnd => Happened(moves, n, DropEvents)
  }

  lemma CausedLater(moves: seq<Move>, n: nat, end: End)
    requires n < |moves| && Caused(moves, n, end)
    ensures Caused(moves, n + 1, end)
  {
  }

  /** The end a turn adds: the event in hand, or the flag or queue found closed. */
  ghost predicate EndFits(s: State, s': State) {
    |s'.log| == |s.log| + 1 ==>
      match s'.log[|s.log|].end
      case ByEvent(e) => InHand(s) == [e]
      case ByClose => s.closed || s.senderGone
      case ByDataEnd => !s.dataOpen
      case ByEventEnd => !s.eventOpen
  }

  lemma TurnEndsBy(s: State, b: Branch)
    ensures EndFits(s, Receive(s, b))
  {
    hide Receive;
    TurnBrings(s, b);
  }

  /** A move adds at most one end, and only a turn adds one. */
  lemma LogOfStep(moves: seq<Move>, n: nat)
    requires n < |moves|
    ensures
      var s, s' := RunTo(moves, n), RunTo(moves, n + 1);
      s'.log == s.log || (moves[n].Turn? && |s'.log| == |s.log| + 1 && s'.log[..|s.log|] == s.log)
  {
    hide Receive, Environment, EndsNow, FlagsMatch;
    FlagsMean(moves, n);
    RunStep(moves, n);
    var s := RunTo(moves, n);
    hide RunTo;
    match moves[n]
    case Env(a) => ActionKeepsResults(s, a);
    case Turn(b) => TurnEnds(moves, n, s, b);
  }

  lemma NoEndYet(moves: seq<Move>)
    ensures RunTo(moves, 0).log == []
  {
  }

  lemma NewEndCaused(moves: seq<Move>, n: nat)
    requires n < |moves| && moves[n].Turn?
    requires |RunTo(moves, n + 1).log| == |RunTo(moves, n).log| + 1
    ensures Caused(moves, n, RunTo(moves, n + 1).log[|RunTo(moves, n).log|].end)
  {
    hide Receive, Happened, Asked, Applied;
    var s := RunTo(moves, n);
    FlagsMean(moves, n);
    TurnEndsBy(s, moves[n].branch);
    FiledUntilApplied(moves, n);
    if InHand(s) != [] {
      var i := |Applied(s.log)|;
      assert s.filed[i] == InHand(s)[0];
      FiledWasAsked(moves, n, i);
    }
  }

  /**
   * In every run, a call that ended by an event ended by one some move asked
   * for, a call that ended for a flag did so after the flag was set or the send
   * half dropped, and a call that ended for a queue did so after it was closed.
   */
  lemma {:induction false} EveryEndIsCaused(moves: seq<Move>, n: nat, i: nat)
    requires n <= |moves| && i < |RunTo(moves, n).log|
    ensures Caused(moves, n, RunTo(moves, n).log[i].end)
  {
    hide RunTo, Caused;
    if n == 0 {
      NoEndYet(moves);
    } else {
      var s, s' := RunTo(moves, n - 1), RunTo(moves, n);
      LogOfStep(moves, n - 1);
      if i < |s.log| {
        EveryEndIsCaused(moves, n - 1, i);
        assert s'.log[i] == s.log[i];
      } else {
        NewEndCaused(moves, n - 1);
      }
      CausedLater(moves, n - 1, s'.log[i].end);
    }
  }

  // ----- What the error says -----

  /** The failure an event stands for. */
  function FailureOf(event: Event): Failure
    requires Loud(event)
  {
    if event.QueueFull? then Overflowed else Disconnected(event.reason)
  }

  lemma {:induction false} LastLoudWins(log: seq<Entry>, k: nat)
    requires k < |Applied(log)| && Loud(Applied(log)[k].event)
    requires forall j :: k < j < |Applied(log)| ==> !Loud(Applied(log)[j].event)
    ensures ErrorAfter(log) == Some(FailureOf(Applied(log)[k].event))
  {
    var last, front := log[|log| - 1].end, log[..|log| - 1];
    if k < |Applied(front)| {
      assert forall j :: k < j < |Applied(front)| ==> Applied(front)[j] == Applied(log)[j];
      if last.ByEvent? { assert Applied(log)[|Applied(front)|] == last.e; }
      LastLoudWins(front, k);
    }
  }

  /**
   * In every run the error reported is that of the last event applied which was
   * not an orderly end: its own close reason, or the overflow.
   */
  lemma ErrorIsLastLoud(moves: seq<Move>, n: nat, k: nat)
    requires n <= |moves|
    requires var a := Applied(RunTo(moves, n).log);
             k < |a| && Loud(a[k].event) && forall j :: k < j < |a| ==> !Loud(a[j].event)
    ensures
      match Applied(RunTo(moves, n).log)[k].event
      case Close(reason) => reason != Normal && RunTo(moves, n).lastError == Some(Disconnected(reason))
      case QueueFull => RunTo(moves, n).lastError == Some(Overflowed)
      case ShutdownWrite => false
  {
    hide RunTo, Applied, ErrorAfter;
    FiledUntilApplied(moves, n);
    LastLoudWins(RunTo(moves, n).log, k);
  }

  // ----- Room in the queues -----

  /** The queues never hold more than 256 payloads and 16 events. */
  lemma {:induction false} QueuesBounded(moves: seq<Move>, n: nat)
    requires n <= |moves|
    ensures |RunTo(moves, n).data| <= 256 && |RunTo(moves, n).events| <= 16
  {
    if n > 0 {
      hide Receive, Environment;
      QueuesBounded(moves, n - 1);
      var s := RunTo(moves, n - 1);
      match moves[n - 1]
      case Env(a) => ActionBounded(s, a);
      case Turn(b) => TurnBrings(s, b);
    }
  }

  lemma ActionBounded(s: State, a: Action)
    requires |s.data| <= 256 && |s.events| <= 16
    ensures |Environment(s, a).data| <= 256 && |Environment(s, a).events| <= 16
  {
  }

  /**
   * In every run, a payload that arrives while both queues are open is queued if
   * fewer than 256 wait, and otherwise refused, with a queue-full event filed if
   * and only if fewer than 16 events wait; after either queue was closed it is
   * dropped without a trace.
   */
  lemma ArrivalOutcome(moves: seq<Move>, n: nat, payload: Payload)
    requires n < |moves| && moves[n] == Env(Arrive(payload))
    ensures
      var s, s' := RunTo(moves, n), RunTo(moves, n + 1);
      if Happened(moves, n, DropData) || Happened(moves, n, DropEvents) then s' == s
      else if |s.data| < 256 then
        s'.accepted == s.accepted + [payload] && s'.refused == s.refused && s'.filed == s.filed
      else
        && s'.accepted == s.accepted && s'.refused == s.refused + 1
        && s'.filed == s.filed + if |s.events| < 16 then [Stamped(QueueFull, |s.accepted|)] else []
  {
    hide Happened;
    FlagsMean(moves, n);
  }
}
