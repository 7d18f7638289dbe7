/**
 * Endpoint reconstruction of one event family: packages arrive in any order and
 * repeated, leave in sequence order, and gaps are reported for repair.
 */
module Reorder {
  import opened MachineTypes

  datatype Package = Package(seqno: nat, payload: seq<byte>)

  /** An inclusive range of sequence numbers. */
  datatype SeqRange = SeqRange(start: nat, end: nat)

  datatype AckNack = AckNack(cumulative: nat, bitmap: set<nat>, missing: seq<SeqRange>)

  datatype Outcome =
    | Deliver(packages: seq<Package>)
    | Buffered
    | Duplicate
    | Gap(ack: AckNack)
    | WindowOverflow(ack: AckNack)

  const BITMAP_BITS: nat := 128

  /** `bitmap` holds the positions of the one bits of the 128-bit word. */
  datatype Family = Family(
    next: nat, window: nat, bitmap: set<nat>, buffer: map<nat, Package>, highest: Option<nat>, closed: bool)

  function Start(first: nat, reorderWindow: u16): Family {
    Family(first, if reorderWindow < BITMAP_BITS then reorderWindow else BITMAP_BITS, {}, map[], None, false)
  }

  function BitmapOf(buffer: map<nat, Package>, next: nat): set<nat> {
    set k | k in buffer && next <= k < next + BITMAP_BITS :: k - next
  }

  // ----- Gap reports -----

  /** Runs of numbers in [from, to) that are not buffered; `open` is the start of a run in progress. */
  function GapsFrom(buffer: map<nat, Package>, from: nat, upto: nat, open: Option<nat>): seq<SeqRange>
    requires from <= upto && (open.Some? ==> open.value < from)
    decreases upto - from
  {
    if from == upto then (if open.Some? then [SeqRange(open.value, from - 1)] else [])
    else if from in buffer then
      (if open.Some? then [SeqRange(open.value, from - 1)] else []) + GapsFrom(buffer, from + 1, upto, None)
    else GapsFrom(buffer, from + 1, upto, if open.Some? then open else Some(from))
  }

  function MissingRanges(f: Family): seq<SeqRange> {
    if f.highest.None? || f.highest.value < f.next then [] else GapsFrom(f.buffer, f.next, f.highest.value + 1, None)
  }

  function AckSnapshot(f: Family): AckNack {
    AckNack(f.next, f.bitmap, MissingRanges(f))
  }

  method CollectGaps(f: Family) returns (missing: seq<SeqRange>)
    ensures missing == MissingRanges(f)
  {
    missing := [];
    if f.highest.None? || f.highest.value < f.next {
      return;
    }
    var open: Option<nat> := None;
    var s := f.next;
    ghost var upto := f.highest.value + 1;
    while s <= f.highest.value
      invariant s <= upto && (open.Some? ==> open.value < s)
      invariant missing + GapsFrom(f.buffer, s, upto, open) == MissingRanges(f)
      decreases upto - s
    {
      ghost var rest := GapsFrom(f.buffer, s + 1, upto, None);
      if s in f.buffer {
        if open.Some? {
          assert missing + ([SeqRange(open.value, s - 1)] + rest) == (missing + [SeqRange(open.value, s - 1)]) + rest;
          missing := missing + [SeqRange(open.value, s - 1)];
          open := None;
        } else {
          assert [] + rest == rest;
        }
      } else if open.None? {
        open := Some(s);
      }
      s := s + 1;
    }
    if open.Some? {
      missing := missing + [SeqRange(open.value, f.highest.value)];
    } else {
      assert missing + [] == missing;
    }
  }

  // ----- Pushing -----

  /** Buffered packages that continue from `next`, what stays, and the new frontier. */
  function Release(buffer: map<nat, Package>, next: nat): (seq<Package>, map<nat, Package>, nat)
    decreases |buffer|
  {
    if next !in buffer then ([], buffer, next)
    else
      var rest := buffer - {next};
      var (out, left, stop) := Release(rest, next + 1);
      ([buffer[next]] + out, left, stop)
  }

  function Push(f: Family, p: Package): (Outcome, Family) {
    var s := p.seqno;
    if f.closed then (WindowOverflow(AckSnapshot(f)), f)
    else if s < f.next || s in f.buffer then (Duplicate, f)
    else if s == f.next then
      var (out, left, stop) := Release(f.buffer, s + 1);
      (Deliver([p] + out), f.(next := stop, buffer := left, bitmap := BitmapOf(left, stop)))
    else if s - f.next >= f.window then
      var f' := f.(closed := true);
      (WindowOverflow(AckSnapshot(f')), f')
    else
      var furthest := f.highest.None? || s > f.highest.value;
      var buffer := f.buffer[s := p];
      var f' := f.(buffer := buffer, highest := Some(if furthest then s else f.highest.value),
                   bitmap := BitmapOf(buffer, f.next));
      (if furthest then Gap(AckSnapshot(f')) else Buffered, f')
  }

  class FamilyReorderState {
    var next: nat
    const window: nat
    var bitmap: set<nat>
    var buffer: map<nat, Package>
    var highest: Option<nat>
    var closed: bool

    ghost function View(): Family
      reads this
    {
      Family(next, window, bitmap, buffer, highest, closed)
    }

    constructor (first: nat, reorderWindow: u16)
      ensures View() == Start(first, reorderWindow)
    {
      next, bitmap, buffer, highest, closed := first, {}, map[], None, false;
      window := if reorderWindow < BITMAP_BITS then reorderWindow else BITMAP_BITS;
    }

    method Snapshot() returns (ack: AckNack)
      ensures ack == AckSnapshot(View())
    {
      var missing := CollectGaps(Family(next, window, bitmap, buffer, highest, closed));
      ack := AckNack(next, bitmap, missing);
    }

    /** Takes buffered packages while the frontier's number is present. */
    method TakeReady(delivered: seq<Package>) returns (out: seq<Package>)
      modifies this`next, this`buffer
      ensures var (more, left, stop) := Release(old(buffer), old(next));
              out == delivered + more && buffer == left && next == stop
    {
      out := delivered;
      ghost var (more, left, stop) := Release(buffer, next);
      while next in buffer
        invariant var (rest, left', stop') := Release(buffer, next);
                  delivered + more == out + rest && left == left' && stop == stop'
        decreases |buffer|
      {
        ghost var (rest, _, _) := Release(buffer - {next}, next + 1);
        assert out + ([buffer[next]] + rest) == (out + [buffer[next]]) + rest;
        out := out + [buffer[next]];
        buffer := buffer - {next};
        next := next + 1;
      }
      assert out + [] == out;
    }

    method PushPackage(p: Package) returns (o: Outcome)
      modifies this
      ensures (o, View()) == Push(old(View()), p)
    {
      if closed {
        var ack := Snapshot();
        return WindowOverflow(ack);
      }
      var s := p.seqno;
      if s < next || s in buffer {
        return Duplicate;
      }
      if s == next {
        next := next + 1;
        var delivered := TakeReady([p]);
        bitmap := BitmapOf(buffer, next);
        return Deliver(delivered);
      }
      if s - next >= window {
        closed := true;
        var ack := Snapshot();
        return WindowOverflow(ack);
      }
      var furthest := highest.None? || s > highest.value;
      buffer := buffer[s := p];
      highest := Some(if furthest then s else highest.value);
      bitmap := BitmapOf(buffer, next);
      if furthest {
        var ack := Snapshot();
        return Gap(ack);
      }
      return Buffered;
    }
  }

  // ----- Gap reports are exact -----

  predicate InRanges(rs: seq<SeqRange>, x: nat) {
    exists i :: 0 <= i < |rs| && rs[i].start <= x <= rs[i].end
  }

  lemma InRangesConcat(a: seq<SeqRange>, b: seq<SeqRange>, x: nat)
    ensures InRanges(a + b, x) <==> InRanges(a, x) || InRanges(b, x)
  {
    if InRanges(a, x) {
      var i :| 0 <= i < |a| && a[i].start <= x <= a[i].end;
      assert (a + b)[i] == a[i];
    }
    if InRanges(b, x) {
      var i :| 0 <= i < |b| && b[i].start <= x <= b[i].end;
      assert (a + b)[|a| + i] == b[i];
    }
  }

  lemma {:induction false} GapsCover(buffer: map<nat, Package>, from: nat, upto: nat, open: Option<nat>, x: nat)
    requires from <= upto && (open.Some? ==> open.value < from)
    ensures InRanges(GapsFrom(buffer, from, upto, open), x)
            <==> (open.Some? && open.value <= x < from) || (from <= x < upto && x !in buffer)
    decreases upto - from
  {
    var emitted := if open.Some? then [SeqRange(open.value, from - 1)] else [];
    assert InRanges(emitted, x) <==> open.Some? && open.value <= x < from by {
      if open.Some? { assert emitted[0] == SeqRange(open.value, from - 1); }
    }
    if from < upto {
      if from in buffer {
        GapsCover(buffer, from + 1, upto, None, x);
        InRangesConcat(emitted, GapsFrom(buffer, from + 1, upto, None), x);
      } else {
        GapsCover(buffer, from + 1, upto, if open.Some? then open else Some(from), x);
      }
    }
  }

  /** A number is reported missing exactly when it lies from the frontier to the highest seen and is not buffered. */
  lemma MissingIsExact(f: Family, x: nat)
    ensures InRanges(AckSnapshot(f).missing, x)
            <==> f.highest.Some? && f.next <= x <= f.highest.value && x !in f.buffer
  {
    if f.highest.Some? && f.highest.value >= f.next {
      GapsCover(f.buffer, f.next, f.highest.value + 1, None, x);
    }
  }

  /** Ranges are non-empty, in order, and never touch. */
  predicate Apart(rs: seq<SeqRange>, floor: nat) {
    && (forall i :: 0 <= i < |rs| ==> floor <= rs[i].start <= rs[i].end)
    && (forall i, j :: 0 <= i < j < |rs| ==> rs[i].end + 1 < rs[j].start)
  }

  lemma {:induction false} GapsApart(buffer: map<nat, Package>, from: nat, upto: nat, open: Option<nat>)
    requires from <= upto && (open.Some? ==> open.value < from)
    ensures Apart(GapsFrom(buffer, from, upto, open), if open.Some? then open.value else from)
    decreases upto - from
  {
    if from < upto {
      if from in buffer {
        GapsApart(buffer, from + 1, upto, None);
      } else {
        GapsApart(buffer, from + 1, upto, if open.Some? then open else Some(from));
      }
    }
  }

  lemma MissingRangesApart(f: Family)
    ensures Apart(AckSnapshot(f).missing, f.next)
  {
    if f.highest.Some? && f.highest.value >= f.next { GapsApart(f.buffer, f.next, f.highest.value + 1, None); }
  }

  // ----- Runs -----

  /** The state, everything delivered, and the first package that arrived under each number. */
  datatype Session = Session(family: Family, delivered: seq<Package>, arrived: map<nat, Package>)

  function Open(first: nat, reorderWindow: u16): Session {
    Session(Start(first, reorderWindow), [], map[])
  }

  function Step(s: Session, p: Package): Session {
    var (o, f) := Push(s.family, p);
    Session(f,
            s.delivered + (if o.Deliver? then o.packages else []),
            if o.WindowOverflow? || o.Duplicate? then s.arrived else s.arrived[p.seqno := p])
  }

  function Run(s: Session, packages: seq<Package>): Session
    decreases |packages|
  {
    if packages == [] then s else Run(Step(s, packages[0]), packages[1..])
  }

  /** Package p is the one filed under number n. */
  predicate Files(m: map<nat, Package>, n: nat, p: Package) {
    n in m && m[n] == p
  }

  ghost predicate BufferInv(f: Family) {
    && f.window <= BITMAP_BITS
    && (forall k :: k in f.buffer ==> f.next < k < f.next + f.window)
    && (forall k :: k in f.buffer ==> f.highest.Some? && k <= f.highest.value)
    && f.bitmap == BitmapOf(f.buffer, f.next)
  }

  /** What was delivered is the first arrivals in number order, and what arrived is what is delivered or buffered. */
  ghost predicate Inv(s: Session, first: nat) {
    && BufferInv(s.family)
    && |s.delivered| == s.family.next - first
    && (forall i :: 0 <= i < |s.delivered| ==> Files(s.arrived, first + i, s.delivered[i]))
    && (forall k :: k in s.family.buffer ==> Files(s.arrived, k, s.family.buffer[k]))
    && (forall k :: k in s.arrived ==> s.arrived[k].seqno == k)
    && (forall x :: x in s.arrived ==> first <= x && (x < s.family.next || x in s.family.buffer))
  }

  /** Releasing hands out consecutive buffered packages and stops at the first number not buffered. */
  lemma {:induction false} ReleaseIsRun(buffer: map<nat, Package>, next: nat)
    ensures
      var (out, left, stop) := Release(buffer, next);
      && stop == next + |out| && stop !in buffer
      && (forall i :: 0 <= i < |out| ==> Files(buffer, next + i, out[i]))
      && (forall k :: k in left <==> k in buffer && !(next <= k < stop))
      && (forall k :: k in left ==> left[k] == buffer[k])
    decreases |buffer|
  {
    if next in buffer {
      var rest := buffer - {next};
      ReleaseIsRun(rest, next + 1);
      var (out, left, stop) := Release(rest, next + 1);
      assert stop != next;
      forall i | 0 <= i < |out| + 1 ensures Files(buffer, next + i, ([buffer[next]] + out)[i]) {
        if i > 0 { assert Files(rest, next + 1 + (i - 1), out[i - 1]); }
      }
    }
  }

  lemma DeliveredFiled(s: Session, first: nat, p: Package, out: seq<Package>, i: nat)
    requires Inv(s, first) && p.seqno == s.family.next && i < |s.delivered| + 1 + |out|
    requires forall j :: 0 <= j < |out| ==> Files(s.family.buffer, p.seqno + 1 + j, out[j])
    ensures Files(s.arrived[p.seqno := p], first + i, (s.delivered + ([p] + out))[i])
  {
    var j := i - |s.delivered|;
    if j < 0 {
      assert Files(s.arrived, first + i, s.delivered[i]);
    } else if j > 0 {
      assert Files(s.family.buffer, p.seqno + 1 + (j - 1), out[j - 1]);
    }
  }

  lemma LeftoverInv(f: Family, out: seq<Package>, left: map<nat, Package>, stop: nat)
    requires BufferInv(f) && stop == f.next + 1 + |out| && stop !in f.buffer
    requires forall k :: k in left <==> k in f.buffer && !(f.next + 1 <= k < stop)
    ensures BufferInv(f.(next := stop, buffer := left, bitmap := BitmapOf(left, stop)))
  {
    forall k | k in left ensures stop < k < stop + f.window {
      assert k in f.buffer;
    }
  }

  lemma DeliverKeeps(s: Session, first: nat, p: Package)
    requires Inv(s, first) && !s.family.closed && p.seqno == s.family.next
    ensures Inv(Step(s, p), first)
  {
    hide Release, BufferInv;
    var f := s.family;
    ReleaseIsRun(f.buffer, f.next + 1);
    var (out, left, stop) := Release(f.buffer, f.next + 1);
    LeftoverInv(f, out, left, stop);
    var s' := Step(s, p);
    NotBufferedYet(f);
    assert s'.delivered == s.delivered + ([p] + out);
    forall i | 0 <= i < |s'.delivered| ensures Files(s'.arrived, first + i, s'.delivered[i]) {
      DeliveredFiled(s, first, p, out, i);
    }
  }

  lemma NotBufferedYet(f: Family)
    requires BufferInv(f)
    ensures f.next !in f.buffer
  {
  }

  lemma BufferKeeps(s: Session, first: nat, p: Package)
    requires Inv(s, first) && p.seqno != s.family.next
    ensures Inv(Step(s, p), first)
  {
    var s' := Step(s, p);
    assert s'.delivered == s.delivered + [] == s.delivered;
    forall i | 0 <= i < |s.delivered| ensures Files(s'.arrived, first + i, s.delivered[i]) {
      assert Files(s.arrived, first + i, s.delivered[i]);
    }
  }

  lemma StepKeeps(s: Session, first: nat, p: Package)
    requires Inv(s, first)
    ensures Inv(Step(s, p), first)
  {
    hide Inv, Step;
    if s.family.closed {
      ClosedKeeps(s, first, p);
    } else if p.seqno == s.family.next {
      DeliverKeeps(s, first, p);
    } else {
      BufferKeeps(s, first, p);
    }
  }

  lemma ClosedKeeps(s: Session, first: nat, p: Package)
    requires Inv(s, first) && s.family.closed
    ensures Inv(Step(s, p), first)
  {
    assert s.delivered + [] == s.delivered;
  }

  lemma {:induction false} RunKeeps(s: Session, first: nat, packages: seq<Package>)
    requires Inv(s, first)
    ensures Inv(Run(s, packages), first)
    decreases |packages|
  {
    hide Inv, Step;
    if packages != [] {
      StepKeeps(s, first, packages[0]);
      RunKeeps(Step(s, packages[0]), first, packages[1..]);
    }
  }

  /**
   * Over every run: packages are delivered once each, in number order from the
   * first, as they first arrived; the frontier is exactly the first number that
   * has not arrived; and the bitmap marks exactly what is buffered.
   */
  lemma InOrderOnce(first: nat, reorderWindow: u16, packages: seq<Package>)
    ensures
      var s := Run(Open(first, reorderWindow), packages);
      && (forall i :: 0 <= i < |s.delivered| ==>
            Files(s.arrived, first + i, s.delivered[i]) && s.delivered[i].seqno == first + i)
      && s.family.next == first + |s.delivered| && s.family.next !in s.arrived
      && s.family.bitmap == (set k | k in s.family.buffer :: k - s.family.next)
  {
    RunKeeps(Open(first, reorderWindow), first, packages);
    var f := Run(Open(first, reorderWindow), packages).family;
    BitmapComplete(f);
  }

  lemma BitmapComplete(f: Family)
    requires BufferInv(f)
    ensures forall k :: k in f.buffer ==> k >= f.next
    ensures f.bitmap == (set k | k in f.buffer :: k - f.next)
  {
    forall k | k in f.buffer ensures k - f.next in f.bitmap {
      assert f.next <= k < f.next + BITMAP_BITS;
    }
  }

  // ----- Every outcome from what has arrived -----

  ghost predicate HighestArrived(s: Session) {
    s.family.highest.Some? ==> s.family.highest.value in s.arrived
  }

  lemma StepHighest(s: Session, p: Package)
    requires HighestArrived(s)
    ensures HighestArrived(Step(s, p)) && Step(s, p).family.window == s.family.window
  {
    hide AckSnapshot, Release, BitmapOf;
  }

  lemma {:induction false} RunHighest(s: Session, packages: seq<Package>)
    requires HighestArrived(s)
    ensures HighestArrived(Run(s, packages)) && Run(s, packages).family.window == s.family.window
    decreases |packages|
  {
    hide HighestArrived, Step;
    if packages != [] {
      StepHighest(s, packages[0]);
      RunHighest(Step(s, packages[0]), packages[1..]);
    }
  }

  /** The outcome for number x, from the frontier, the window and the numbers that have arrived. */
  ghost predicate Answers(o: Outcome, closed: bool, first: nat, frontier: nat, width: nat, arrived: set<nat>, x: nat) {
    && (o.WindowOverflow? <==> closed || (x > frontier && x >= frontier + width))
    && (o.Duplicate? <==> !closed && (x < first || x in arrived))
    && (o.Deliver? <==> !closed && x == frontier)
    && (o.Gap? <==>
          !closed && frontier < x < frontier + width && x !in arrived && forall k :: k in arrived ==> k < x)
    && (o.Buffered? <==>
          !closed && frontier < x < frontier + width && x !in arrived && exists k :: k in arrived && k > x)
  }

  lemma PushAnswers(s: Session, first: nat, p: Package)
    requires Inv(s, first) && HighestArrived(s)
    ensures
      Answers(Push(s.family, p).0, s.family.closed, first, first + |s.delivered|,
              s.family.window, s.arrived.Keys, p.seqno)
  {
    hide AckSnapshot, Release, BitmapOf;
    var f, x := s.family, p.seqno;
    if first <= x < f.next { assert Files(s.arrived, first + (x - first), s.delivered[x - first]); }
    if x in f.buffer { assert Files(s.arrived, x, f.buffer[x]); }
    if f.highest.Some? && x < f.highest.value { assert f.highest.value in s.arrived.Keys; }
  }

  /**
   * Over every run, what a push answers is decided by the numbers that have
   * arrived: a repeat, the frontier itself, a number beyond the window of at
   * most 128, the furthest number so far, or one in between.
   */
  lemma OutcomeFromArrivals(first: nat, reorderWindow: u16, packages: seq<Package>, p: Package)
    ensures
      var s := Run(Open(first, reorderWindow), packages);
      Answers(Push(s.family, p).0, s.family.closed, first, first + |s.delivered|,
              if reorderWindow <= 128 then reorderWindow else 128, s.arrived.Keys, p.seqno)
  {
    hide Inv, Run, Push, Answers;
    var s := Open(first, reorderWindow);
    assert Inv(s, first) by { FreshInv(first, reorderWindow); }
    RunKeeps(s, first, packages);
    RunHighest(s, packages);
    PushAnswers(Run(s, packages), first, p);
  }

  lemma FreshInv(first: nat, reorderWindow: u16)
    ensures Inv(Open(first, reorderWindow), first)
  {
  }

  /** Some push of the run went beyond the window. */
  ghost predicate Overflowed(s: Session, packages: seq<Package>)
    decreases |packages|
  {
    packages != []
    && (Push(s.family, packages[0]).0.WindowOverflow? || Overflowed(Step(s, packages[0]), packages[1..]))
  }

  lemma PushCloses(f: Family, p: Package)
    ensures Push(f, p).1.closed <==> Push(f, p).0.WindowOverflow?
    ensures f.closed ==> Push(f, p).1 == f
  {
    hide AckSnapshot, Release, BitmapOf;
  }

  lemma StepClosed(s: Session, p: Package)
    requires s.family.closed
    ensures Step(s, p) == s && Push(s.family, p).0.WindowOverflow?
  {
    hide AckSnapshot;
    assert s.delivered + [] == s.delivered;
  }

  lemma {:induction false} ClosedStays(s: Session, packages: seq<Package>)
    requires s.family.closed
    ensures Run(s, packages) == s
    decreases |packages|
  {
    hide Step, Push;
    if packages != [] {
      StepClosed(s, packages[0]);
      ClosedStays(s, packages[1..]);
    }
  }

  /** The family is closed if and only if some push overflowed the window, and from then on nothing changes. */
  lemma {:induction false} ClosedIff(s: Session, packages: seq<Package>)
    requires !s.family.closed
    ensures Run(s, packages).family.closed <==> Overflowed(s, packages)
    decreases |packages|
  {
    if packages != [] {
      PushCloses(s.family, packages[0]);
      var s' := Step(s, packages[0]);
      hide Push;
      if s'.family.closed { ClosedStays(s', packages[1..]); } else { ClosedIff(s', packages[1..]); }
    }
  }
}
