/**
 * QUIC flow control: one credit window, and the protocol two of them run over
 * a channel that may lose, repeat and reorder limit updates (section 4.1 of RFC 9000).
 */
module QuicFlow {
  import opened MachineTypes
  import opened Sums

  datatype Window = Window(limit: u64, used: u64)

  function Available(w: Window): u64 {
    SatSub(w.limit, w.used)
  }

  function Consume(w: Window, n: u64): (Window, bool) {
    if n > Available(w) then (w, false) else (w.(used := w.used + n), true)
  }

  function SetLimit(w: Window, limit: u64): Window {
    if limit > w.limit then w.(limit := limit) else w
  }

  /** No `u64` overflow in the doubling, nor in the new limit where one is computed. */
  predicate ExtendFits(w: Window, window: u64) {
    Available(w) * 2 <= U64_MAX && (Available(w) * 2 <= window ==> w.used + window <= U64_MAX)
  }

  function MaybeExtend(w: Window, window: u64): (Window, Option<u64>)
    requires ExtendFits(w, window)
  {
    if Available(w) * 2 <= window then (w.(limit := w.used + window), Some(w.used + window)) else (w, None)
  }

  /** Bytes are counted if and only if they fit, and what is left shrinks by exactly them. */
  lemma ConsumeMeans(w: Window, n: u64)
    ensures
      var (w', ok) := Consume(w, n);
      && (ok <==> n == 0 || w.used + n <= w.limit)
      && w' == (if ok then Window(w.limit, w.used + n) else w)
      && (ok ==> Available(w') == Available(w) - n)
  {
  }

  /** A new limit is offered if and only if at most half the window is left, and leaves a whole window. */
  lemma ExtendMeans(w: Window, window: u64)
    requires ExtendFits(w, window)
    ensures
      var (w', offered) := MaybeExtend(w, window);
      && (offered.Some? <==> 2 * Available(w) <= window)
      && (offered.Some? ==> offered.value == w'.limit && Available(w') == window)
      && w'.used == w.used && (offered.None? ==> w' == w)
  {
  }

  class FlowController {
    var limit: u64
    var used: u64

    ghost function View(): Window
      reads this
    {
      Window(limit, used)
    }

    constructor (initialLimit: u64)
      ensures View() == Window(initialLimit, 0)
    {
      limit, used := initialLimit, 0;
    }

    method ConsumeBytes(n: u64) returns (ok: bool)
      modifies this
      ensures (View(), ok) == Consume(old(View()), n)
    {
      if n > SatSub(limit, used) {
        return false;
      }
      used := used + n;
      return true;
    }

    method RaiseLimit(newLimit: u64)
      modifies this
      ensures View() == SetLimit(old(View()), newLimit)
    {
      if newLimit > limit {
        limit := newLimit;
      }
    }

    /** An error is an overflow, on which a checked build panics. */
    method Extend(window: u64) returns (r: Result<Option<u64>, ()>)
      modifies this
      ensures r.Err? <==> !ExtendFits(old(View()), window)
      ensures r.Err? ==> View() == old(View())
      ensures r.Ok? ==> (View(), r.value) == MaybeExtend(old(View()), window)
    {
      var twice := SatSub(limit, used) * 2;
      if twice > U64_MAX {
        return Err(());
      }
      if twice <= window {
        if used + window > U64_MAX {
          return Err(());
        }
        limit := used + window;
        return Ok(Some(limit));
      }
      return Ok(None);
    }
  }

  // ----- Sender and receiver -----

  /**
   * `adverts` are all limits ever announced; `inflight` are sent chunks not yet
   * delivered or given up; `delivered` are the chunks the receiver has been
   * charged for once; `lost` and `repeated` count bytes that were given up, and
   * bytes that were charged again.
   */
  datatype Link = Link(
    sender: Window, receiver: Window, adverts: set<u64>, inflight: seq<u64>, delivered: seq<u64>,
    lost: nat, repeated: nat, refused: bool)

  datatype Step =
    | Send(n: u64)
    | Lose(i: nat)
    | Deliver(i: nat)
    | Repeat(i: nat)
    | Extend(window: u64)
    | Hear(limit: u64)

  function Start(initial: u64): Link {
    Link(Window(0, 0), Window(initial, 0), {initial}, [], [], 0, 0, false)
  }

  predicate Enabled(l: Link, step: Step) {
    match step
    case Send(_) => true
    case Lose(i) => i < |l.inflight|
    case Deliver(i) => i < |l.inflight|
    case Repeat(i) => i < |l.delivered|
    case Extend(window) => ExtendFits(l.receiver, window)
    case Hear(limit) => limit in l.adverts
  }

  function Drop(s: seq<u64>, i: nat): seq<u64>
    requires i < |s|
  {
    s[..i] + s[i + 1..]
  }

  function Apply(l: Link, step: Step): Link
    requires Enabled(l, step)
  {
    match step
    case Send(n) =>
      var (w, ok) := Consume(l.sender, n);
      if ok then l.(sender := w, inflight := l.inflight + [n]) else l
    case Lose(i) => l.(inflight := Drop(l.inflight, i), lost := l.lost + l.inflight[i])
    case Deliver(i) =>
      var (w, ok) := Consume(l.receiver, l.inflight[i]);
      l.(receiver := w, inflight := Drop(l.inflight, i), refused := l.refused || !ok,
         delivered := if ok then l.delivered + [l.inflight[i]] else l.delivered)
    case Repeat(i) =>
      var (w, ok) := Consume(l.receiver, l.delivered[i]);
      l.(receiver := w, refused := l.refused || !ok, repeated := l.repeated + (if ok then l.delivered[i] else 0))
    case Extend(window) =>
      var (w, advert) := MaybeExtend(l.receiver, window);
      l.(receiver := w, adverts := l.adverts + (if advert.Some? then {advert.value} else {}))
    case Hear(limit) => l.(sender := SetLimit(l.sender, limit))
  }

  /** A run: every step is enabled where it is taken. */
  ghost predicate IsRun(l: Link, steps: seq<Step>)
    decreases |steps|
  {
    steps == [] || (Enabled(l, steps[0]) && IsRun(Apply(l, steps[0]), steps[1..]))
  }

  function After(l: Link, steps: seq<Step>): Link
    requires IsRun(l, steps)
    decreases |steps|
  {
    if steps == [] then l else After(Apply(l, steps[0]), steps[1..])
  }

  // ----- Sums of chunks -----

  lemma {:induction false} SumToPrefix(a: seq<int>, b: seq<int>, n: nat)
    requires n <= |a| && n <= |b| && forall k :: 0 <= k < n ==> a[k] == b[k]
    ensures SumTo(a, n) == SumTo(b, n)
  {
    if n > 0 { SumToPrefix(a, b, n - 1); }
  }

  lemma {:induction false} SumToDrop(s: seq<u64>, i: nat, n: nat)
    requires i < n <= |s|
    ensures SumTo(Drop(s, i), n - 1) == SumTo(s, n) - s[i]
  {
    if n == i + 1 { SumToPrefix(Drop(s, i), s, i); } else { SumToDrop(s, i, n - 1); }
  }

  lemma {:induction false} SumNonNegative(s: seq<u64>, n: nat)
    requires n <= |s|
    ensures SumTo(s, n) >= 0
  {
    if n > 0 { SumNonNegative(s, n - 1); }
  }

  lemma SumDrop(s: seq<u64>, i: nat)
    requires i < |s|
    ensures Sum(Drop(s, i)) == Sum(s) - s[i] && Sum(Drop(s, i)) >= 0
  {
    SumToDrop(s, i, |s|);
    SumNonNegative(Drop(s, i), |s| - 1);
  }

  lemma SumSnoc(s: seq<u64>, n: u64)
    ensures Sum(s + [n]) == Sum(s) + n
  {
    SumToPrefix(s + [n], s, |s|);
  }

  // ----- What every step keeps -----

  /** The limits are ordered, and until something is refused the bytes charged at the two ends balance. */
  ghost predicate Inv(l: Link) {
    && l.sender.used <= l.sender.limit <= l.receiver.limit
    && l.receiver.used <= l.receiver.limit
    && l.receiver.limit in l.adverts && (forall a :: a in l.adverts ==> a <= l.receiver.limit)
    && (!l.refused ==> l.receiver.used + Sum(l.inflight) + l.lost == l.sender.used + l.repeated)
  }

  /** Each step keeps the invariant, and no limit goes down at either end. */
  lemma StepKeeps(l: Link, step: Step)
    requires Inv(l) && Enabled(l, step)
    ensures Inv(Apply(l, step))
    ensures Apply(l, step).sender.limit >= l.sender.limit && Apply(l, step).receiver.limit >= l.receiver.limit
  {
    hide Sum;
    match step
    case Send(n) => SumSnoc(l.inflight, n);
    case Lose(i) => SumDrop(l.inflight, i);
    case Deliver(i) => SumDrop(l.inflight, i);
    case _ =>
  }

  lemma {:induction false} RunKeeps(l: Link, steps: seq<Step>)
    requires Inv(l) && IsRun(l, steps)
    ensures Inv(After(l, steps))
    ensures After(l, steps).sender.limit >= l.sender.limit && After(l, steps).receiver.limit >= l.receiver.limit
    decreases |steps|
  {
    hide Inv, Apply, Enabled;
    if steps != [] {
      StepKeeps(l, steps[0]);
      RunKeeps(Apply(l, steps[0]), steps[1..]);
    }
  }

  // ----- When a permitted byte is refused -----

  /** No chunk is delivered a second time. */
  predicate Fresh(steps: seq<Step>) {
    forall i :: 0 <= i < |steps| ==> !steps[i].Repeat?
  }

  /** Whatever bytes were charged twice, at least as many were never charged. */
  ghost predicate Balanced(l: Link) {
    Inv(l) && !l.refused && l.repeated <= l.lost
  }

  lemma FreshStepBalances(l: Link, step: Step)
    requires Balanced(l) && Enabled(l, step) && !step.Repeat?
    ensures Balanced(Apply(l, step))
  {
    hide Sum;
    StepKeeps(l, step);
    if step.Deliver? { SumDrop(l.inflight, step.i); }
  }

  lemma {:induction false} FreshRunBalances(l: Link, steps: seq<Step>)
    requires Balanced(l) && IsRun(l, steps) && Fresh(steps)
    ensures Balanced(After(l, steps))
    decreases |steps|
  {
    hide Balanced, Apply, Enabled;
    if steps != [] {
      FreshStepBalances(l, steps[0]);
      FreshRunBalances(Apply(l, steps[0]), steps[1..]);
    }
  }

  /**
   * In every run from the start that delivers each chunk at most once, whatever
   * limit updates are lost, repeated or reordered, the sender's limit never
   * passes the receiver's and the receiver never refuses a byte the sender was
   * allowed to send.
   */
  lemma NeverRefused(initial: u64, steps: seq<Step>)
    requires IsRun(Start(initial), steps) && Fresh(steps)
    ensures
      var l := After(Start(initial), steps);
      !l.refused && l.sender.used <= l.sender.limit <= l.receiver.limit && l.receiver.used <= l.sender.used
  {
    FreshRunBalances(Start(initial), steps);
    SumNonNegative(After(Start(initial), steps).inflight, |After(Start(initial), steps).inflight|);
  }

  /** From here on, nothing is refused however fresh traffic continues. */
  ghost predicate Safe(l: Link) {
    forall steps :: IsRun(l, steps) && Fresh(steps) ==> !After(l, steps).refused
  }

  /** Delivers everything in flight, oldest first. */
  function Flush(n: nat): (steps: seq<Step>)
    ensures |steps| == n && Fresh(steps)
  {
    if n == 0 then [] else [Deliver(0)] + Flush(n - 1)
  }

  /** More is in flight than the receiver can take, or something was refused already. */
  ghost predicate Overfull(l: Link) {
    && l.receiver.used <= l.receiver.limit
    && (l.refused || l.receiver.used + Sum(l.inflight) > l.receiver.limit)
  }

  lemma DeliverKeepsOverfull(l: Link)
    requires Overfull(l) && l.inflight != []
    ensures var l' := Apply(l, Deliver(0)); Overfull(l') && |l'.inflight| == |l.inflight| - 1
  {
    hide Sum;
    SumDrop(l.inflight, 0);
  }

  lemma {:induction false} FlushRefuses(l: Link)
    requires Overfull(l)
    ensures IsRun(l, Flush(|l.inflight|)) && After(l, Flush(|l.inflight|)).refused
    decreases |l.inflight|
  {
    if l.inflight != [] {
      hide Overfull, Apply;
      DeliverKeepsOverfull(l);
      FlushRefuses(Apply(l, Deliver(0)));
      assert Flush(|l.inflight|)[1..] == Flush(|l.inflight| - 1);
    }
  }

  /** Hears the newest limit, uses all of it, and delivers everything. */
  function Spend(l: Link): (steps: seq<Step>)
    requires Inv(l)
    ensures Fresh(steps)
  {
    [Hear(l.receiver.limit)] + ([Send(l.receiver.limit - l.sender.used)] + Flush(|l.inflight| + 1))
  }

  lemma SpendFills(l: Link)
    requires Inv(l) && !l.refused && l.repeated > l.lost
    ensures
      var l1 := Apply(l, Hear(l.receiver.limit));
      var l2 := Apply(l1, Send(l.receiver.limit - l.sender.used));
      Overfull(l2) && |l2.inflight| == |l.inflight| + 1
  {
    hide Sum;
    SumSnoc(l.inflight, l.receiver.limit - l.sender.used);
  }

  lemma SpendRefuses(l: Link)
    requires Inv(l) && !l.refused && l.repeated > l.lost
    ensures IsRun(l, Spend(l)) && After(l, Spend(l)).refused
  {
    hide Sum, Flush, Overfull, Apply;
    SpendFills(l);
    var n := l.receiver.limit - l.sender.used;
    var l1 := Apply(l, Hear(l.receiver.limit));
    var l2 := Apply(l1, Send(n));
    FlushRefuses(l2);
    var tail := [Send(n)] + Flush(|l.inflight| + 1);
    assert Spend(l)[1..] == tail && tail[1..] == Flush(|l.inflight| + 1);
    assert IsRun(l1, tail) && After(l1, tail) == After(l2, Flush(|l.inflight| + 1));
  }

  /**
   * After any run, with any repeats: a sender that keeps to its limit is never
   * refused from there on, however fresh traffic continues, if and only if
   * nothing was refused so far and no more bytes were repeated than lost.
   */
  lemma SafeIff(initial: u64, steps: seq<Step>)
    requires IsRun(Start(initial), steps)
    ensures
      var l := After(Start(initial), steps);
      Safe(l) <==> !l.refused && l.repeated <= l.lost
  {
    hide Sum;
    RunKeeps(Start(initial), steps) by { StartKeeps(initial); }
    var l := After(Start(initial), steps);
    if l.refused {
      assert IsRun(l, []) && Fresh([]) && After(l, []).refused;
    } else if l.repeated <= l.lost {
      forall more | IsRun(l, more) && Fresh(more) ensures !After(l, more).refused {
        FreshRunBalances(l, more);
      }
    } else {
      SpendRefuses(l);
    }
  }

  lemma StartKeeps(initial: u64)
    ensures Inv(Start(initial))
  {
  }

  /** A concrete case: one byte is repeated, and the second and last byte the sender may send is refused. */
  lemma RepeatCrowdsOutFresh()
    ensures
      var steps := [Hear(2), Send(1), Deliver(0), Repeat(0), Send(1), Deliver(0)];
      && IsRun(Start(2), steps) && After(Start(2), steps).refused
      && After(Start(2), steps).sender.used == 2
  {
    var l1 := Apply(Start(2), Hear(2));
    var l2 := Apply(l1, Send(1));
    var l3 := Apply(l2, Deliver(0));
    var l4 := Apply(l3, Repeat(0));
    var l5 := Apply(l4, Send(1));
    var tail3 := [Repeat(0), Send(1), Deliver(0)];
    assert tail3[1..] == [Send(1), Deliver(0)] && tail3[1..][1..] == [Deliver(0)] && tail3[1..][1..][1..] == [];
    assert IsRun(l3, tail3) && After(l3, tail3) == Apply(l5, Deliver(0));
    var tail2 := [Deliver(0)] + tail3;
    var tail1 := [Send(1)] + tail2;
    assert tail2[1..] == tail3 && tail1[1..] == tail2;
    assert IsRun(l2, tail2) && IsRun(l1, tail1) && After(l1, tail1) == After(l3, tail3);
    assert [Hear(2), Send(1), Deliver(0), Repeat(0), Send(1), Deliver(0)] == [Hear(2)] + tail1;
    assert ([Hear(2)] + tail1)[1..] == tail1;
  }

  // ----- When a blocked sender gets credit -----

  /** The sender hears no update, and the receiver looks at its window with this size, as it does for every packet. */
  predicate Unheard(steps: seq<Step>, window: u64) {
    forall i :: 0 <= i < |steps| ==> !steps[i].Hear? && (steps[i].Extend? ==> steps[i].window == window)
  }

  /** A limit was announced since that the sender has not used up. */
  ghost predicate Offers(after: Link, before: Link) {
    exists a :: a in after.adverts - before.adverts && a > before.sender.used
  }

  /** Some continuation without repeated deliveries announces such a limit. */
  ghost predicate Revives(l: Link, window: u64) {
    exists steps :: IsRun(l, steps) && Fresh(steps) && Unheard(steps, window) && Offers(After(l, steps), l)
  }

  /** Both ends stand still: nothing but empty chunks can be in flight. */
  ghost predicate Stuck(l: Link, l0: Link, window: u64) {
    && l.sender == l0.sender && l.receiver == l0.receiver && l.adverts == l0.adverts
    && l0.sender.used == l0.sender.limit && Available(l0.receiver) * 2 > window
    && forall i :: 0 <= i < |l.inflight| ==> l.inflight[i] == 0
  }

  lemma StuckStep(l: Link, l0: Link, window: u64, step: Step)
    requires Stuck(l, l0, window) && Enabled(l, step)
    requires !step.Hear? && !step.Repeat? && (step.Extend? ==> step.window == window)
    ensures Stuck(Apply(l, step), l0, window)
  {
    if step.Extend? { assert l.adverts + {} == l.adverts; }
  }

  lemma {:induction false} StuckForGood(l: Link, l0: Link, window: u64, steps: seq<Step>)
    requires Stuck(l, l0, window) && IsRun(l, steps) && Fresh(steps) && Unheard(steps, window)
    ensures Stuck(After(l, steps), l0, window)
    decreases |steps|
  {
    hide Stuck, Apply, Enabled;
    if steps != [] {
      StuckStep(l, l0, window, steps[0]);
      StuckForGood(Apply(l, steps[0]), l0, window, steps[1..]);
    }
  }

  /**
   * A sender that has used its whole limit, with nothing in flight, is ever
   * announced new credit without a repeated delivery, whatever else the two ends
   * do, if and only if at most half the window is left at the receiver.
   */
  lemma RevivesIff(l: Link, window: u64)
    requires Inv(l) && ExtendFits(l.receiver, window) && window > 0
    requires l.sender.used == l.sender.limit && l.inflight == []
    ensures Revives(l, window) <==> 2 * (l.receiver.limit - l.receiver.used) <= window
  {
    hide Sum;
    if 2 * (l.receiver.limit - l.receiver.used) <= window {
      LookOffers(l, window);
    } else {
      forall steps | IsRun(l, steps) && Fresh(steps) && Unheard(steps, window) ensures !Offers(After(l, steps), l) {
        StuckForGood(l, l, window, steps);
      }
    }
  }

  /** One look announces new credit once at most half the window is left. */
  lemma LookOffers(l: Link, window: u64)
    requires Inv(l) && ExtendFits(l.receiver, window) && window > 0
    requires l.sender.used == l.sender.limit && 2 * (l.receiver.limit - l.receiver.used) <= window
    ensures Offers(Apply(l, Extend(window)), l) && Revives(l, window)
  {
    hide Sum;
    var steps, l' := [Extend(window)], Apply(l, Extend(window));
    var limit := l.receiver.used + window;
    assert limit > l.receiver.limit && limit in l'.adverts - l.adverts;
    assert steps[1..] == [] && IsRun(l', []) && After(l', []) == l';
    assert IsRun(l, steps) && After(l, steps) == l' && Fresh(steps) && Unheard(steps, window);
  }

  /** The way out: a repeated delivery that is accepted and brings the rest down to half the window. */
  lemma RepeatRevives(l: Link, window: u64, i: nat)
    requires Inv(l) && window > 0 && l.sender.used == l.sender.limit && i < |l.delivered| && !l.refused
    requires l.delivered[i] <= l.receiver.limit - l.receiver.used
    requires 2 * (l.receiver.limit - l.receiver.used - l.delivered[i]) <= window
    requires l.receiver.used + l.delivered[i] + window <= U64_MAX
    ensures var l' := Apply(l, Repeat(i)); !l'.refused && ExtendFits(l'.receiver, window) && Revives(l', window)
  {
    StepKeeps(l, Repeat(i));
    LookOffers(Apply(l, Repeat(i)), window);
  }

  /**
   * A concrete case: the one update after a full window is lost, and nothing but
   * a repeated delivery ever brings the sender new credit.
   */
  lemma LostUpdateDeadlocks(window: u64)
    requires 0 < window && 2 * window <= U64_MAX
    ensures
      var steps := [Hear(window), Send(window), Deliver(0), Extend(window)];
      && IsRun(Start(window), steps)
      && var l := After(Start(window), steps);
      && l.sender.used == l.sender.limit == l.receiver.used && l.inflight == [] && !Revives(l, window)
      && Enabled(l, Repeat(0)) && (3 * window <= U64_MAX ==> Revives(Apply(l, Repeat(0)), window))
  {
    var l1 := Apply(Start(window), Hear(window));
    var l2 := Apply(l1, Send(window));
    assert l2.inflight == [window];
    var l3 := Apply(l2, Deliver(0));
    var l4 := Apply(l3, Extend(window));
    var tail := [Deliver(0), Extend(window)];
    assert tail[1..] == [Extend(window)] && tail[1..][1..] == [];
    assert IsRun(l4, []) && After(l4, []) == l4;
    assert IsRun(l3, [Extend(window)]) && After(l3, [Extend(window)]) == l4;
    assert IsRun(l2, tail) && After(l2, tail) == l4;
    var steps := [Hear(window), Send(window), Deliver(0), Extend(window)];
    assert steps[1..] == [Send(window)] + tail && steps[1..][1..] == tail;
    assert IsRun(l1, steps[1..]) && After(l1, steps[1..]) == l4;
    RunKeeps(Start(window), steps) by { StartKeeps(window); }
    assert l4.delivered == [window];
    RevivesIff(l4, window);
    if 3 * window <= U64_MAX { RepeatRevives(l4, window, 0); }
  }
}
