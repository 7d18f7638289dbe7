/**
 * The receive half of a mesh-peer stream: a driver task files payloads and
 * terminal events in two bounded queues while `recv` takes from both. Every
 * interleaving is a list of moves, one atomic action each.
 */
module PeerStream {
  import opened MachineTypes

  const DATA_BOUND: nat := 256
  const EVENT_BOUND: nat := 16

  type Payload = seq<byte>

  datatype Reason = Normal | Unsupported | NoUsableExit | ProtocolError

  datatype Event = ShutdownWrite | Close(reason: Reason) | QueueFull

  datatype Failure = Disconnected(reason: Reason) | Overflowed

  /** An event and how many payloads had been accepted when it was filed. */
  datatype Stamped = Stamped(event: Event, before: nat)

  datatype Phase = Idle | TryData | TakeTerminal | CheckClosed | Waiting | Draining(e: Stamped) | Deciding(e: Stamped)

  /** Why a call returned `None`. */
  datatype End = ByEvent(e: Stamped) | ByClose | ByDataEnd | ByEventEnd

  /** An end and how many payloads had been returned by then. */
  datatype Entry = Entry(end: End, count: nat)

  /**
   * The last line is history: payloads accepted and returned, ends, payloads
   * refused for a full queue, every event ever filed, and how many
   * payloads had been accepted when `recv` last found the data queue empty.
   */
  datatype State = State(
    phase: Phase, data: seq<Payload>, events: seq<Stamped>, dataOpen: bool, eventOpen: bool, closed: bool,
    senderGone: bool, pending: seq<Payload>, terminal: Option<Stamped>, lastError: Option<Failure>,
    accepted: seq<Payload>, returned: seq<Payload>, log: seq<Entry>, refused: nat, filed: seq<Stamped>, polled: nat)

  const INIT := State(Idle, [], [], true, true, false, false, [], None, None, [], [], [], 0, [], 0)

  // ----- The environment: the driver task and the send half -----

  datatype Action =
    | Arrive(payload: Payload)
    | Shutdown
    | PeerClose(reason: Reason)
    | DropData
    | DropEvents
    | SetClosed
    | DropSender

  function File(s: State, event: Event): State {
    var stamped := Stamped(event, |s.accepted|);
    if |s.events| < EVENT_BOUND then s.(events := s.events + [stamped], filed := s.filed + [stamped]) else s
  }

  function Environment(s: State, a: Action): State {
    match a
    case Arrive(payload) =>
      if !s.dataOpen || !s.eventOpen then s
      else if |s.data| < DATA_BOUND then s.(data := s.data + [payload], accepted := s.accepted + [payload])
      else File(s, QueueFull).(refused := s.refused + 1)
    case Shutdown => if !s.dataOpen || !s.eventOpen then s else File(s, ShutdownWrite)
    case PeerClose(reason) => if !s.dataOpen || !s.eventOpen then s else File(s, Close(reason))
    case DropData => s.(dataOpen := false)
    case DropEvents => s.(eventOpen := false)
    case SetClosed => s.(closed := true)
    case DropSender => s.(senderGone := true)
  }

  // ----- The receiver: one atomic action of `recv` -----

  /** The branch `select!` takes, or the caller dropping the future. */
  datatype Branch = OnClosed | OnData | OnEvent | Abandon

  function ErrorOf(event: Event, previous: Option<Failure>): Option<Failure> {
    match event
    case ShutdownWrite => previous
    case Close(reason) => if reason == Normal then previous else Some(Disconnected(reason))
    case QueueFull => Some(Overflowed)
  }

  function Return(s: State, payload: Payload): State {
    s.(phase := Idle, returned := s.returned + [payload])
  }

  function Finish(s: State, end: End): State {
    s.(phase := Idle, log := s.log + [Entry(end, |s.returned|)])
  }

  function ApplyEvent(s: State, e: Stamped): State {
    Finish(s.(lastError := ErrorOf(e.event, s.lastError)), ByEvent(e))
  }

  function Select(s: State, b: Branch): State {
    match b
    case OnClosed => if s.closed || s.senderGone then Finish(s, ByClose) else s
    case OnData =>
      if s.data != [] then Return(s.(data := s.data[1..]), s.data[0])
      else if !s.dataOpen then Finish(s, ByDataEnd) else s
    case OnEvent =>
      if s.events != [] then s.(events := s.events[1..], phase := Draining(s.events[0]))
      else if !s.eventOpen then Finish(s, ByEventEnd) else s
    case Abandon => s.(phase := Idle)
  }

  function Receive(s: State, b: Branch): State {
    match s.phase
    case Idle =>
      if s.pending != [] then Return(s.(pending := s.pending[1..]), s.pending[0]) else s.(phase := TryData)
    case TryData =>
      if s.data != [] then Return(s.(data := s.data[1..]), s.data[0])
      else s.(phase := TakeTerminal, polled := |s.accepted|)
    case TakeTerminal =>
      if s.terminal.Some? then ApplyEvent(s.(terminal := None), s.terminal.value) else s.(phase := CheckClosed)
    case CheckClosed => if s.closed then Finish(s, ByClose) else s.(phase := Waiting)
    case Waiting => Select(s, b)
    case Draining(e) =>
      if s.data != [] then s.(data := s.data[1..], pending := s.pending + [s.data[0]]) else s.(phase := Deciding(e))
    case Deciding(e) =>
      if s.pending != [] then Return(s.(pending := s.pending[1..], terminal := Some(e)), s.pending[0])
      else ApplyEvent(s, e)
  }

  datatype Move = Env(action: Action) | Turn(branch: Branch)

  function Step(s: State, m: Move): State {
    match m
    case Env(a) => Environment(s, a)
    case Turn(b) => Receive(s, b)
  }

  /** The state after the first `n` moves. */
  function RunTo(moves: seq<Move>, n: nat): State
    requires n <= |moves|
  {
    if n == 0 then INIT else Step(RunTo(moves, n - 1), moves[n - 1])
  }

  // ----- `recv` itself -----

  datatype Outcome = Got(payload: Payload) | Ended | Cancelled | Blocked

  /**
   * The receive half under a fixed but arbitrary list of moves: before each of
   * its own atomic actions the environment takes all of its moves up to the next
   * turn. The fields from `accepted` on only record history.
   */
  class RecvHalf {
    const moves: seq<Move>
    var at: nat
    var data: seq<Payload>
    var events: seq<Stamped>
    var dataOpen: bool
    var eventOpen: bool
    var closed: bool
    var senderGone: bool
    var pending: seq<Payload>
    var terminal: Option<Stamped>
    var lastError: Option<Failure>
    var accepted: seq<Payload>
    ghost var refused: nat
    ghost var filed: seq<Stamped>
    ghost var polled: nat
    ghost var returned: seq<Payload>
    ghost var log: seq<Entry>

    ghost function View(phase: Phase): State
      reads this
    {
      State(phase, data, events, dataOpen, eventOpen, closed, senderGone, pending, terminal, lastError,
            accepted, returned, log, refused, filed, polled)
    }

    /** The object is where the first `at` moves lead. */
    ghost predicate Tracks(phase: Phase)
      reads this
    {
      at <= |moves| && View(phase) == RunTo(moves, at)
    }

    /** The object is one receiver action short of where the first `at` moves lead. */
    ghost predicate Owes(phase: Phase, b: Branch)
      reads this
    {
      0 < at <= |moves| && moves[at - 1] == Turn(b) && View(phase) == RunTo(moves, at - 1)
    }

    constructor (moves: seq<Move>)
      ensures Tracks(Idle)
    {
      this.moves := moves;
      at, data, events, dataOpen, eventOpen, closed, senderGone := 0, [], [], true, true, false, false;
      pending, terminal, lastError, accepted, returned, log := [], None, None, [], [], [];
      refused, filed, polled := 0, [], 0;
    }

    method TryFile(event: Event, ghost phase: Phase)
      modifies this`events, this`filed
      ensures View(phase) == File(old(View(phase)), event)
    {
      if |events| < EVENT_BOUND {
        filed := filed + [Stamped(event, |accepted|)];
        events := events + [Stamped(event, |accepted|)];
      }
    }

    method Refuse(ghost phase: Phase)
      modifies this`events, this`refused, this`filed
      ensures
        var s := old(View(phase));
        View(phase) == File(s, QueueFull).(refused := s.refused + 1)
    {
      TryFile(QueueFull, phase);
      refused := refused + 1;
    }

    /** A data frame: queued, or refused with a queue-full event. */
    method FilePayload(payload: Payload, ghost phase: Phase)
      modifies this`data, this`events, this`accepted, this`refused, this`filed
      ensures View(phase) == Environment(old(View(phase)), Arrive(payload))
    {
      if dataOpen && eventOpen {
        if |data| < DATA_BOUND {
          data, accepted := data + [payload], accepted + [payload];
        } else {
          Refuse(phase);
        }
      }
    }

    /** One action of the driver task or the send half. */
    method Act(a: Action, ghost phase: Phase)
      modifies this`data, this`events, this`accepted, this`refused, this`filed,
               this`dataOpen, this`eventOpen, this`closed, this`senderGone
      ensures View(phase) == Environment(old(View(phase)), a)
    {
      match a {
        case Arrive(payload) => FilePayload(payload, phase);
        case Shutdown => if dataOpen && eventOpen { TryFile(ShutdownWrite, phase); }
        case PeerClose(reason) => if dataOpen && eventOpen { TryFile(Close(reason), phase); }
        case DropData => dataOpen := false;
        case DropEvents => eventOpen := false;
        case SetClosed => closed := true;
        case DropSender => senderGone := true;
      }
    }

    /** Lets the environment move until it is the receiver's turn, if it ever is. */
    method NextTurn(ghost phase: Phase) returns (turn: Option<Branch>)
      requires Tracks(phase)
      modifies this`at, this`data, this`events, this`accepted, this`refused, this`filed,
               this`dataOpen, this`eventOpen, this`closed, this`senderGone
      ensures turn.Some? ==> Owes(phase, turn.value) && old(at) < at
      ensures turn.None? ==> Tracks(phase)
      ensures at <= |moves|
    {
      hide Environment, Receive;
      while at < |moves|
        invariant Tracks(phase) && old(at) <= at
        decreases |moves| - at
      {
        var m := moves[at];
        at := at + 1;
        match m {
          case Turn(b) => return Some(b);
          case Env(a) => Act(a, phase);
        }
      }
      return None;
    }

    method Deliver(payload: Payload, ghost phase: Phase) returns (o: Outcome)
      modifies this`returned
      ensures o == Got(payload) && View(Idle) == Return(old(View(phase)), payload)
    {
      returned := returned + [payload];
      o := Got(payload);
    }

    method End(ghost end: End, ghost phase: Phase) returns (o: Outcome)
      modifies this`log
      ensures o == Ended && View(Idle) == Finish(old(View(phase)), end)
    {
      log := log + [Entry(end, |returned|)];
      o := Ended;
    }

    method ApplyStreamEvent(e: Stamped, ghost phase: Phase) returns (o: Outcome)
      modifies this`lastError, this`log
      ensures o == Ended && View(Idle) == ApplyEvent(old(View(phase)), e)
    {
      match e.event {
        case ShutdownWrite =>
        case Close(reason) => if reason != Normal { lastError := Some(Disconnected(reason)); }
        case QueueFull => lastError := Some(Overflowed);
      }
      o := End(ByEvent(e), phase);
    }

    /** What a finished call reports is what it recorded. */
    twostate predicate Reports(o: Outcome)
      reads this
    {
      && returned == old(returned) + (if o.Got? then [o.payload] else [])
      && (o.Ended? <==> |log| == |old(log)| + 1)
      && (!o.Ended? ==> log == old(log))
    }

    /** Taking the owed action catches up with the moves. */
    lemma CatchesUp(s: State, phase: Phase, b: Branch)
      requires 0 < at <= |moves| && moves[at - 1] == Turn(b) && s == RunTo(moves, at - 1)
      requires View(phase) == Receive(s, b)
      ensures Tracks(phase)
    {
      hide Receive, Environment;
    }

    method TakePending(ghost b: Branch) returns (o: Outcome)
      requires Owes(Idle, b) && pending != []
      modifies this`pending, this`returned
      ensures Tracks(Idle) && Reports(o) && o.Got?
    {
      hide RunTo;
      ghost var s := View(Idle);
      var payload := pending[0];
      pending := pending[1..];
      o := Deliver(payload, Idle);
      CatchesUp(s, Idle, b);
    }

    /** Takes the head of the data queue, by `try_recv` or by the `select!` branch. */
    method TakeData(ghost phase: Phase, ghost b: Branch) returns (o: Outcome)
      requires Owes(phase, b) && data != [] && (phase == TryData || (phase == Waiting && b == OnData))
      modifies this`data, this`returned
      ensures Tracks(Idle) && Reports(o) && o.Got?
    {
      hide RunTo;
      ghost var s := View(phase);
      var payload := data[0];
      data := data[1..];
      o := Deliver(payload, phase);
      CatchesUp(s, Idle, b);
    }

    method TakeHeldEvent(ghost b: Branch) returns (o: Outcome)
      requires Owes(TakeTerminal, b) && terminal.Some?
      modifies this`terminal, this`lastError, this`log
      ensures Tracks(Idle) && Reports(o) && o.Ended?
    {
      hide RunTo, ErrorOf;
      ghost var s := View(TakeTerminal);
      var e := terminal.value;
      terminal := None;
      o := ApplyStreamEvent(e, TakeTerminal);
      CatchesUp(s, Idle, b);
    }

    /** Returns `None` for a closed flag or queue, where the code does. */
    method EndHere(ghost end: End, ghost phase: Phase, ghost b: Branch) returns (o: Outcome)
      requires Owes(phase, b) && Receive(View(phase), b) == Finish(View(phase), end)
      modifies this`log
      ensures Tracks(Idle) && Reports(o) && o.Ended?
    {
      hide RunTo, Receive;
      ghost var s := View(phase);
      o := End(end, phase);
      CatchesUp(s, Idle, b);
    }

    /** Finding nothing, a check passes on to the next. */
    lemma PassesOn(phase: Phase, b: Branch, next: Phase)
      requires Owes(phase, b) && Receive(View(phase), b) == View(next)
      ensures Tracks(next)
    {
      hide RunTo, Receive;
      CatchesUp(View(phase), next, b);
    }

    lemma NothingPending(b: Branch)
      requires Owes(Idle, b) && pending == []
      ensures Tracks(TryData)
    {
      hide RunTo;
      PassesOn(Idle, b, TryData);
    }

    lemma NothingHeld(b: Branch)
      requires Owes(TakeTerminal, b) && terminal == None
      ensures Tracks(CheckClosed)
    {
      hide RunTo;
      PassesOn(TakeTerminal, b, CheckClosed);
    }

    lemma Drained(e: Stamped, b: Branch)
      requires Owes(Draining(e), b) && data == []
      ensures Tracks(Deciding(e))
    {
      hide RunTo;
      PassesOn(Draining(e), b, Deciding(e));
    }

    lemma NotClosed(b: Branch)
      requires Owes(CheckClosed, b) && !closed
      ensures Tracks(Waiting)
    {
      hide RunTo;
      PassesOn(CheckClosed, b, Waiting);
    }

    method EndClosed(ghost b: Branch) returns (o: Outcome)
      requires Owes(CheckClosed, b) && closed
      modifies this`log
      ensures Tracks(Idle) && Reports(o) && o.Ended?
    {
      hide RunTo;
      o := EndHere(ByClose, CheckClosed, b);
    }

    /** Both buffers were found empty. */
    ghost method NothingQueued(b: Branch)
      requires Owes(TryData, b) && data == []
      modifies this`polled
      ensures Tracks(TakeTerminal)
    {
      hide RunTo;
      var s := View(TryData);
      polled := |accepted|;
      CatchesUp(s, TakeTerminal, b);
    }

    method DrainOne(e: Stamped, ghost b: Branch)
      requires Owes(Draining(e), b) && data != []
      modifies this`data, this`pending
      ensures Tracks(Draining(e))
    {
      hide RunTo;
      ghost var s := View(Draining(e));
      data, pending := data[1..], pending + [data[0]];
      CatchesUp(s, Draining(e), b);
    }

    /** Moves the whole data queue into `pending`; false when the receiver gets no further turn. */
    method DrainData(e: Stamped) returns (done: bool)
      requires Tracks(Draining(e))
      modifies this`at, this`data, this`events, this`accepted, this`refused, this`filed,
               this`dataOpen, this`eventOpen, this`closed, this`senderGone, this`pending
      ensures Tracks(if done then Deciding(e) else Draining(e))
    {
      hide Tracks, Owes, View;
      var turn := NextTurn(Draining(e));
      while turn.Some? && data != []
        invariant if turn.Some? then Owes(Draining(e), turn.value) else Tracks(Draining(e))
        invariant at <= |moves|
        decreases turn.Some?, |moves| - at
      {
        DrainOne(e, turn.value);
        turn := NextTurn(Draining(e));
      }
      done := turn.Some?;
      if done { Drained(e, turn.value); }
    }

    /** With the queue drained, hands out the first payload and holds the event, or applies the event. */
    method Decide(e: Stamped, ghost b: Branch) returns (o: Outcome)
      requires Owes(Deciding(e), b)
      modifies this`pending, this`terminal, this`returned, this`lastError, this`log
      ensures Tracks(Idle) && Reports(o) && !o.Blocked?
    {
      hide RunTo, ErrorOf;
      ghost var s := View(Deciding(e));
      if pending != [] {
        var payload := pending[0];
        pending, terminal := pending[1..], Some(e);
        o := Deliver(payload, Deciding(e));
      } else {
        o := ApplyStreamEvent(e, Deciding(e));
      }
      CatchesUp(s, Idle, b);
    }

    /** The event branch: the payloads that were queued are handed out before the event takes effect. */
    method OnEventBranch(ghost b: Branch) returns (o: Outcome, ghost phase: Phase)
      requires Owes(Waiting, b) && b == OnEvent && events != []
      modifies this
      ensures Tracks(phase) && Reports(o) && (!o.Blocked? ==> phase == Idle)
    {
      hide RunTo, Environment;
      ghost var s := View(Waiting);
      var e := events[0];
      events := events[1..];
      CatchesUp(s, Draining(e), b);
      hide Owes, Tracks, Receive;
      var done := DrainData(e);
      if !done { return Blocked, Draining(e); }
      var turn := NextTurn(Deciding(e));
      if turn.None? { return Blocked, Deciding(e); }
      phase := Idle;
      o := Decide(e, turn.value);
    }

    /** The `select!`: waits until the branch chosen is ready. */
    method Await() returns (o: Outcome, ghost phase: Phase)
      requires Tracks(Waiting)
      modifies this
      ensures Tracks(phase) && Reports(o) && (!o.Blocked? ==> phase == Idle)
    {
      hide RunTo, Environment, Finish;
      while true
        invariant Tracks(Waiting) && returned == old(returned) && log == old(log)
        decreases |moves| - at
      {
        var turn := NextTurn(Waiting);
        if turn.None? { return Blocked, Waiting; }
        phase := Idle;
        ghost var b := turn.value;
        match turn.value {
          case OnClosed => if closed || senderGone { o := EndHere(ByClose, Waiting, b); return; }
          case OnData =>
            if data != [] {
              o := TakeData(Waiting, b);
              return;
            } else if !dataOpen {
              o := EndHere(ByDataEnd, Waiting, b);
              return;
            }
          case OnEvent =>
            if events != [] {
              o, phase := OnEventBranch(b);
              return;
            } else if !eventOpen {
              o := EndHere(ByEventEnd, Waiting, b);
              return;
            }
          case Abandon =>
            PassesOn(Waiting, b, Idle);
            return Cancelled, Idle;
        }
        PassesOn(Waiting, b, Waiting);
      }
    }

    /** The rest of `recv` once both buffers have been found empty. */
    method RecvIdle() returns (o: Outcome, ghost phase: Phase)
      requires Tracks(TakeTerminal)
      modifies this
      ensures Tracks(phase) && Reports(o) && (!o.Blocked? ==> phase == Idle)
    {
      hide Tracks, Owes, View;
      var turn := NextTurn(TakeTerminal);
      if turn.None? { return Blocked, TakeTerminal; }
      phase := Idle;
      if terminal.Some? {
        o := TakeHeldEvent(turn.value);
        return;
      }
      NothingHeld(turn.value);
      turn := NextTurn(CheckClosed);
      if turn.None? { return Blocked, CheckClosed; }
      if closed {
        o := EndClosed(turn.value);
        return;
      }
      NotClosed(turn.value);
      o, phase := Await();
    }

    method Recv() returns (o: Outcome, ghost phase: Phase)
      requires Tracks(Idle)
      modifies this
      ensures Tracks(phase) && Reports(o) && (!o.Blocked? ==> phase == Idle)
    {
      hide Tracks, Owes, View;
      var turn := NextTurn(Idle);
      if turn.None? { return Blocked, Idle; }
      phase := Idle;
      if pending != [] {
        o := TakePending(turn.value);
        return;
      }
      NothingPending(turn.value);
      turn := NextTurn(TryData);
      if turn.None? { return Blocked, TryData; }
      if data != [] {
        o := TakeData(TryData, turn.value);
        return;
      }
      NothingQueued(turn.value);
      o, phase := RecvIdle();
    }
  }

  // ----- What every step keeps -----

  /** Payloads are neither lost, repeated nor reordered on their way through the two buffers. */
  ghost predicate InOrder(s: State) {
    s.accepted == s.returned + s.pending + s.data
  }

  ghost predicate PhaseInv(s: State) {
    && (s.phase != Idle && !s.phase.Draining? && !s.phase.Deciding? ==> s.pending == [])
    && (s.phase.CheckClosed? || s.phase.Waiting? || s.phase.Draining? || s.phase.Deciding? ==> s.terminal == None)
    && (s.phase.TakeTerminal? || s.phase.CheckClosed? || s.phase.Waiting? ==> |s.returned| == s.polled)
  }

  /** Payloads taken out of the data queue so far. */
  function Taken(s: State): nat { |s.returned| + |s.pending| }

  ghost predicate StampInv(s: State) {
    && (forall i :: 0 <= i < |s.events| ==> s.events[i].before <= |s.accepted|)
    && (s.phase.Draining? ==> s.phase.e.before <= |s.accepted|)
    && (s.phase.Deciding? ==> s.phase.e.before <= Taken(s))
    && (s.terminal.Some? ==> s.terminal.value.before <= Taken(s))
  }

  ghost predicate Sound(s: State, entry: Entry) {
    && entry.count <= |s.returned|
    && (entry.end.ByEvent? ==> entry.end.e.before <= entry.count)
    && (entry.end.ByDataEnd? ==> !s.dataOpen && entry.count == |s.accepted|)
  }

  ghost predicate LogInv(s: State) {
    forall i :: 0 <= i < |s.log| ==> Sound(s, s.log[i])
  }

  ghost predicate Inv(s: State) {
    InOrder(s) && PhaseInv(s) && StampInv(s) && LogInv(s)
  }

  lemma LogKeeps(s: State, s': State)
    requires LogInv(s) && s'.log == s.log && |s.returned| <= |s'.returned|
    requires s'.dataOpen ==> s.dataOpen
    requires !s.dataOpen ==> s'.accepted == s.accepted
    ensures LogInv(s')
  {
    forall i | 0 <= i < |s'.log| ensures Sound(s', s'.log[i]) {
      assert Sound(s, s.log[i]);
    }
  }

  lemma FileKeeps(s: State, event: Event)
    requires Inv(s)
    ensures Inv(File(s, event))
  {
    LogKeeps(s, File(s, event));
  }

  lemma AcceptKeeps(s: State, payload: Payload)
    requires Inv(s) && s.dataOpen
    ensures Inv(s.(data := s.data + [payload], accepted := s.accepted + [payload]))
  {
    hide LogInv;
    assert s.returned + s.pending + (s.data + [payload]) == s.returned + s.pending + s.data + [payload];
    LogKeeps(s, s.(data := s.data + [payload], accepted := s.accepted + [payload]));
  }

  lemma ArriveKeeps(s: State, payload: Payload)
    requires Inv(s)
    ensures Inv(Environment(s, Arrive(payload)))
  {
    hide LogInv, File;
    if s.dataOpen && s.eventOpen {
      if |s.data| < DATA_BOUND {
        AcceptKeeps(s, payload);
      } else {
        var f := File(s, QueueFull);
        FileKeeps(s, QueueFull);
        LogKeeps(f, f.(refused := s.refused + 1));
      }
    }
  }

  lemma EnvironmentKeeps(s: State, a: Action)
    requires Inv(s)
    ensures Inv(Environment(s, a))
  {
    hide LogInv;
    match a
    case Arrive(payload) => ArriveKeeps(s, payload);
    case Shutdown => FileKeeps(s, ShutdownWrite);
    case PeerClose(reason) => FileKeeps(s, Close(reason));
    case _ => LogKeeps(s, Environment(s, a));
  }

  lemma ReturnKeeps(s: State, rest: State, payload: Payload)
    requires Inv(s)
    requires rest.log == s.log && rest.returned == s.returned && rest.accepted == s.accepted
    requires rest.dataOpen == s.dataOpen && rest.events == s.events
    requires s.accepted == s.returned + [payload] + rest.pending + rest.data
    requires rest.terminal.Some? ==> rest.terminal.value.before <= |s.returned| + 1 + |rest.pending|
    ensures Inv(Return(rest, payload))
  {
    var s' := Return(rest, payload);
    forall i | 0 <= i < |s'.log| ensures Sound(s', s'.log[i]) {
      assert Sound(s, s.log[i]);
    }
  }

  lemma FinishKeeps(s: State, end: End)
    requires Inv(s)
    requires end.ByEvent? ==> end.e.before <= |s.returned|
    requires end.ByDataEnd? ==> !s.dataOpen && |s.returned| == |s.accepted|
    ensures Inv(Finish(s, end))
  {
    var s' := Finish(s, end);
    forall i | 0 <= i < |s'.log| ensures Sound(s', s'.log[i]) {
      if i < |s.log| { assert Sound(s, s.log[i]); }
    }
  }

  /** Before the drain starts the buffers hold only what is queued. */
  lemma HeadReturns(s: State)
    requires Inv(s) && s.pending == [] && s.data != []
    ensures Inv(Return(s.(data := s.data[1..]), s.data[0]))
  {
    var rest := s.(data := s.data[1..]);
    assert s.data == [s.data[0]] + rest.data;
    assert s.accepted == s.returned + [s.data[0]] + rest.pending + rest.data;
    ReturnKeeps(s, rest, s.data[0]);
  }

  lemma PendingReturns(s: State, terminal: Option<Stamped>)
    requires Inv(s) && s.pending != []
    requires terminal.Some? ==> terminal.value.before <= Taken(s)
    ensures Inv(Return(s.(pending := s.pending[1..], terminal := terminal), s.pending[0]))
  {
    var rest := s.(pending := s.pending[1..], terminal := terminal);
    assert s.pending == [s.pending[0]] + rest.pending;
    assert s.accepted == s.returned + [s.pending[0]] + rest.pending + rest.data;
    ReturnKeeps(s, rest, s.pending[0]);
  }

  lemma EventKeeps(s: State, e: Stamped)
    requires Inv(s) && e.before <= |s.returned|
    ensures Inv(ApplyEvent(s, e))
  {
    hide ErrorOf;
    var s' := s.(lastError := ErrorOf(e.event, s.lastError));
    LogKeeps(s, s');
    FinishKeeps(s', ByEvent(e));
  }

  lemma SelectKeeps(s: State, b: Branch)
    requires Inv(s) && s.phase == Waiting
    ensures Inv(Select(s, b))
  {
    hide LogInv;
    match b
    case OnClosed => FinishKeeps(s, ByClose);
    case OnData =>
      if s.data != [] {
        HeadReturns(s);
      } else if !s.dataOpen {
        FinishKeeps(s, ByDataEnd);
      }
    case OnEvent =>
      LogKeeps(s, s.(events := if s.events != [] then s.events[1..] else s.events,
                     phase := if s.events != [] then Draining(s.events[0]) else s.phase));
      FinishKeeps(s, ByEventEnd);
    case Abandon => LogKeeps(s, s.(phase := Idle));
  }

  lemma DrainKeeps(s: State)
    requires Inv(s) && s.phase.Draining?
    ensures Inv(Receive(s, OnClosed))
  {
    hide LogInv;
    var s' := Receive(s, OnClosed);
    LogKeeps(s, s');
    if s.data != [] {
      assert s.data == [s.data[0]] + s.data[1..];
      assert s.returned + (s.pending + [s.data[0]]) + s.data[1..] == s.returned + s.pending + s.data;
    }
  }

  /** Moving on to a later check takes nothing from the queues. */
  lemma AdvanceKeeps(s: State, phase: Phase)
    requires Inv(s) && s.pending == [] && (phase.TryData? || phase.TakeTerminal? || s.terminal == None)
    requires phase.TakeTerminal? || phase.CheckClosed? || phase.Waiting? ==> |s.returned| == s.polled
    requires !phase.Draining? && !phase.Deciding?
    ensures Inv(s.(phase := phase))
  {
    LogKeeps(s, s.(phase := phase));
  }

  /** Once both buffers are found empty, everything accepted has been returned. */
  lemma PollKeeps(s: State)
    requires Inv(s) && s.phase == TryData && s.data == []
    ensures Inv(s.(phase := TakeTerminal, polled := |s.accepted|))
  {
    LogKeeps(s, s.(phase := TakeTerminal, polled := |s.accepted|));
  }

  lemma TerminalKeeps(s: State)
    requires Inv(s) && s.phase == TakeTerminal && s.terminal.Some?
    ensures Inv(ApplyEvent(s.(terminal := None), s.terminal.value))
  {
    hide ApplyEvent;
    LogKeeps(s, s.(terminal := None));
    EventKeeps(s.(terminal := None), s.terminal.value);
  }

  lemma PhaseFacts(s: State)
    requires Inv(s)
    ensures PhaseInv(s) && StampInv(s)
  {
  }

  lemma ReceiveKeeps(s: State, b: Branch)
    requires Inv(s)
    ensures Inv(Receive(s, b))
  {
    hide Inv, Return, Finish, ApplyEvent, Select;
    PhaseFacts(s);
    match s.phase
    case Idle => if s.pending != [] { PendingReturns(s, s.terminal); } else { AdvanceKeeps(s, TryData); }
    case TryData => if s.data != [] { HeadReturns(s); } else { PollKeeps(s); }
    case TakeTerminal => if s.terminal.Some? { TerminalKeeps(s); } else { AdvanceKeeps(s, CheckClosed); }
    case CheckClosed => if s.closed { FinishKeeps(s, ByClose); } else { AdvanceKeeps(s, Waiting); }
    case Waiting => SelectKeeps(s, b);
    case Draining(_) => DrainKeeps(s);
    case Deciding(e) => if s.pending != [] { PendingReturns(s, Some(e)); } else { EventKeeps(s, e); }
  }

  lemma {:induction false} RunKeeps(moves: seq<Move>, n: nat)
    requires n <= |moves|
    ensures Inv(RunTo(moves, n))
  {
    if n > 0 {
      hide Inv, Environment, Receive;
      RunKeeps(moves, n - 1);
      var s := RunTo(moves, n - 1);
      match moves[n - 1]
      case Env(a) => EnvironmentKeeps(s, a);
      case Turn(b) => ReceiveKeeps(s, b);
    }
  }

  // ----- The theorems -----

  /** What has been returned is always a prefix of what was accepted, in order. */
  lemma DeliveredInOrder(moves: seq<Move>, n: nat)
    requires n <= |moves|
    ensures RunTo(moves, n).returned <= RunTo(moves, n).accepted
  {
    RunKeeps(moves, n);
  }

  /** Everything accepted before the event was filed had been returned when it ended the stream. */
  ghost predicate EndedAfter(s: State, e: Stamped, count: nat) {
    e.before <= count <= |s.returned| && s.returned[..count] <= s.accepted
  }

  lemma LoggedAfter(s: State, i: nat)
    requires Inv(s) && i < |s.log| && s.log[i].end.ByEvent?
    ensures EndedAfter(s, s.log[i].end.e, s.log[i].count)
  {
    hide PhaseInv, StampInv;
    assert Sound(s, s.log[i]);
    assert s.accepted == s.returned + (s.pending + s.data);
  }

  /**
   * In every interleaving, an event ends the stream only after every payload
   * accepted before it was filed has been returned.
   */
  lemma TerminalIsLast(moves: seq<Move>, n: nat, i: nat)
    requires n <= |moves| && i < |RunTo(moves, n).log| && RunTo(moves, n).log[i].end.ByEvent?
    ensures var s := RunTo(moves, n); EndedAfter(s, s.log[i].end.e, s.log[i].count)
  {
    hide RunTo, Inv, EndedAfter;
    RunKeeps(moves, n);
    LoggedAfter(RunTo(moves, n), i);
  }

  /** A stream ended by the data queue closing has returned everything it ever accepts. */
  lemma DataEndIsComplete(moves: seq<Move>, n: nat, i: nat)
    requires n <= |moves| && i < |RunTo(moves, n).log| && RunTo(moves, n).log[i].end.ByDataEnd?
    ensures RunTo(moves, n).returned == RunTo(moves, n).accepted
  {
    RunKeeps(moves, n);
    var s := RunTo(moves, n);
    assert Sound(s, s.log[i]);
  }

  /** The next turn ends the call for a closed flag, a dropped send half or a closed event queue. */
  ghost predicate Quits(s: State, b: Branch) {
    || (s.phase == CheckClosed && s.closed)
    || (s.phase == Waiting && b == OnClosed && (s.closed || s.senderGone))
    || (s.phase == Waiting && b == OnEvent && s.events == [] && !s.eventOpen)
  }

  /**
   * Such an end leaves nothing behind if and only if no payload was accepted
   * since this call found the data queue empty. Otherwise the next call still
   * returns the payload the caller was told there was none of.
   */
  lemma QuietEndExact(moves: seq<Move>, n: nat, b: Branch)
    requires n <= |moves| && Quits(RunTo(moves, n), b)
    ensures
      var s := RunTo(moves, n);
      var s' := Receive(s, b);
      && |s'.log| == |s.log| + 1 && s'.phase == Idle
      && (s'.returned == s'.accepted <==> |s.accepted| == s.polled)
      && (|s.accepted| > s.polled ==>
            Receive(Receive(s', OnData), OnData).returned == s.returned + [s.accepted[s.polled]])
  {
    hide RunTo, LogInv, StampInv;
    RunKeeps(moves, n);
    var s := RunTo(moves, n);
    assert s.pending == [] && s.accepted == s.returned + s.data;
    assert |s.accepted| > s.polled ==> s.data != [] && s.accepted[s.polled] == s.data[0];
  }

  /**
   * A run that ends so: the payload arrives and both queues close while the
   * receiver waits, and `select!` looks at the event queue.
   */
  lemma EventEndCanDrop(payload: Payload)
    ensures
      var turn := Turn(OnEvent);
      var moves := [turn, turn, turn, turn, Env(Arrive(payload)), Env(DropEvents), Env(DropData), turn];
      var s := RunTo(moves, 8);
      s.log == [Entry(ByEventEnd, 0)] && s.returned == [] && s.accepted == [payload]
  {
    var turn := Turn(OnEvent);
    var moves := [turn, turn, turn, turn, Env(Arrive(payload)), Env(DropEvents), Env(DropData), turn];
    WaitingSoon(moves);
    var filled := INIT.(phase := Waiting, data := [payload], accepted := [payload]);
    assert RunTo(moves, 5) == filled by { assert [] + [payload] == [payload]; }
    assert RunTo(moves, 7) == filled.(eventOpen := false, dataOpen := false);
  }

  /** The same when the send half is dropped while the receiver waits. */
  lemma DroppedSenderCanDrop(payload: Payload)
    ensures
      var turn := Turn(OnClosed);
      var moves := [turn, turn, turn, turn, Env(Arrive(payload)), Env(DropSender), turn];
      var s := RunTo(moves, 7);
      s.log == [Entry(ByClose, 0)] && s.returned == [] && s.accepted == [payload]
  {
    var turn := Turn(OnClosed);
    var moves := [turn, turn, turn, turn, Env(Arrive(payload)), Env(DropSender), turn];
    WaitingSoon(moves);
    var filled := INIT.(phase := Waiting, data := [payload], accepted := [payload]);
    assert RunTo(moves, 5) == filled by { assert [] + [payload] == [payload]; }
    assert RunTo(moves, 6) == filled.(senderGone := true);
  }

  /** With nothing to take, four turns bring `recv` to its `select!`. */
  lemma WaitingSoon(moves: seq<Move>)
    requires |moves| >= 4 && forall i :: 0 <= i < 4 ==> moves[i].Turn?
    ensures RunTo(moves, 4) == INIT.(phase := Waiting)
  {
    assert RunTo(moves, 1) == INIT.(phase := TryData);
    assert RunTo(moves, 2) == INIT.(phase := TakeTerminal);
    assert RunTo(moves, 3) == INIT.(phase := CheckClosed);
  }
}
