/** Mesh path control: round-trip estimation (section 5.3 of RFC 9002), in-flight accounting and loss. */
module PathControl {
  import opened MachineTypes
  import opened Ordered
  import opened Reorder
  import Arithmetic

  const INITIAL_RTT: nat := 333_000
  const MAX_ACK_DELAY: nat := 25_000
  const INITIAL_WINDOW: nat := 12_000
  const MIN_WINDOW: nat := 2_400

  // ----- Round-trip estimation -----

  datatype Rtt = Rtt(latest: nat, min: nat, smoothed: nat, rttvar: nat, sampled: bool)

  const INITIAL := Rtt(INITIAL_RTT, INITIAL_RTT, INITIAL_RTT, INITIAL_RTT / 2, false)

  datatype Sample = Sample(rtt: nat, ackDelay: nat)

  function Least(a: nat, b: nat): nat { if a <= b then a else b }

  function AbsDiff(a: nat, b: nat): nat { if a >= b then a - b else b - a }

  /** The sample less the reported delay, where that does not take it below the minimum. */
  function Adjusted(min: nat, s: Sample): nat {
    var delay := Least(s.ackDelay, MAX_ACK_DELAY);
    if s.rtt >= min + delay then s.rtt - delay else s.rtt
  }

  function OnSample(r: Rtt, s: Sample): Rtt {
    if !r.sampled then Rtt(s.rtt, s.rtt, s.rtt, s.rtt / 2, true)
    else
      var min := Least(r.min, s.rtt);
      var adjusted := Adjusted(min, s);
      Rtt(s.rtt, min, (r.smoothed * 7 + adjusted) / 8, (r.rttvar * 3 + AbsDiff(r.smoothed, adjusted)) / 4, true)
  }

  class MeshRttEstimator {
    var latest: nat
    var min: nat
    var smoothed: nat
    var rttvar: nat
    var sampled: bool

    ghost function View(): Rtt
      reads this
    {
      Rtt(latest, min, smoothed, rttvar, sampled)
    }

    constructor ()
      ensures View() == INITIAL
    {
      latest, min, smoothed, rttvar, sampled := INITIAL_RTT, INITIAL_RTT, INITIAL_RTT, INITIAL_RTT / 2, false;
    }

    method Record(rtt: nat, ackDelay: nat)
      modifies this
      ensures View() == OnSample(old(View()), Sample(rtt, ackDelay))
    {
      latest := rtt;
      if !sampled {
        min, smoothed, rttvar, sampled := rtt, rtt, rtt / 2, true;
        return;
      }
      min := Least(min, rtt);
      var delay := Least(ackDelay, MAX_ACK_DELAY);
      var adjusted := if rtt >= min + delay then rtt - delay else rtt;
      rttvar := (rttvar * 3 + AbsDiff(smoothed, adjusted)) / 4;
      smoothed := (smoothed * 7 + adjusted) / 8;
    }
  }

  function OnSamples(r: Rtt, samples: seq<Sample>): Rtt {
    if samples == [] then r else OnSample(OnSamples(r, samples[..|samples| - 1]), samples[|samples| - 1])
  }

  ghost predicate IsLeast(samples: seq<Sample>, lo: nat) {
    && (forall i :: 0 <= i < |samples| ==> lo <= samples[i].rtt)
    && exists i :: 0 <= i < |samples| && samples[i].rtt == lo
  }

  ghost predicate Below(samples: seq<Sample>, hi: nat) {
    forall i :: 0 <= i < |samples| ==> samples[i].rtt <= hi
  }

  /** One sample keeps the smoothed value and the variation within the samples' range. */
  lemma SampleInRange(r: Rtt, s: Sample, hi: nat)
    requires r.sampled && r.min <= r.smoothed <= hi && r.rttvar <= hi && s.rtt <= hi
    ensures
      var r' := OnSample(r, s);
      r'.min == Least(r.min, s.rtt) && r'.min <= r'.smoothed <= hi && r'.rttvar <= hi
  {
  }

  /**
   * After any non-empty run of samples the minimum is the least sample, the
   * smoothed value lies between it and any upper bound of the samples, and the
   * variation stays below that bound.
   */
  lemma {:induction false} EstimatesInRange(samples: seq<Sample>, hi: nat)
    requires samples != [] && Below(samples, hi)
    ensures
      var r := OnSamples(INITIAL, samples);
      && r.sampled && r.latest == samples[|samples| - 1].rtt
      && IsLeast(samples, r.min) && r.min <= r.smoothed <= hi && r.rttvar <= hi
  {
    hide IsLeast;
    var n := |samples| - 1;
    var init, last := samples[..n], samples[n];
    assert samples == init + [last];
    if n == 0 {
      LeastOfOne(last);
      assert samples == [last];
    } else {
      EstimatesInRange(init, hi);
      var r := OnSamples(INITIAL, init);
      LeastExtends(init, last, r.min);
      SampleInRange(r, last, hi);
    }
  }

  lemma LeastOfOne(s: Sample)
    ensures IsLeast([s], s.rtt)
  {
    assert [s][0] == s;
  }

  lemma LeastExtends(samples: seq<Sample>, s: Sample, lo: nat)
    requires IsLeast(samples, lo)
    ensures IsLeast(samples + [s], Least(lo, s.rtt))
  {
    var i :| 0 <= i < |samples| && samples[i].rtt == lo;
    assert (samples + [s])[i].rtt == lo && (samples + [s])[|samples|].rtt == s.rtt;
  }

  function Pow(base: nat, n: nat): nat {
    if n == 0 then 1 else base * Pow(base, n - 1)
  }

  /**
   * On a path whose round trip is always v, whatever delays the peer reports,
   * the estimate is v from the first sample on and the variation shrinks by a
   * quarter with every further one.
   */
  lemma {:induction false} SteadyPath(samples: seq<Sample>, v: nat)
    requires samples != [] && forall i :: 0 <= i < |samples| ==> samples[i].rtt == v
    ensures
      var r := OnSamples(INITIAL, samples);
      && r.sampled && r.min == v && r.smoothed == v
      && r.rttvar * Pow(4, |samples| - 1) <= v * Pow(3, |samples| - 1)
  {
    var n := |samples| - 1;
    assert samples[n].rtt == v;
    if n > 0 {
      SteadyPath(samples[..n], v);
      var r, r' := OnSamples(INITIAL, samples[..n]), OnSamples(INITIAL, samples);
      assert r'.smoothed == v && 4 * r'.rttvar <= 3 * r.rttvar;
      ShrinkStep(r.rttvar, r'.rttvar, v, Pow(4, n - 1), Pow(3, n - 1));
    }
  }

  lemma ShrinkStep(a: nat, b: nat, v: nat, four: nat, three: nat)
    requires 4 * b <= 3 * a && a * four <= v * three
    ensures b * (4 * four) <= v * (3 * three)
  {
    calc {
      b * (4 * four);
      (4 * b) * four;
    <= { Arithmetic.MulMonotone(4 * b, 3 * a, four); }
      (3 * a) * four;
      3 * (a * four);
    <=
      3 * (v * three);
      v * (3 * three);
    }
  }

  /**
   * A later sample counts for an eighth of the smoothed value and its distance
   * for a quarter of the variation, both rounded down, after the delay reported
   * for it, up to 25 ms, is taken off where that leaves at least the minimum.
   */
  lemma SampleWeighs(r: Rtt, s: Sample)
    requires r.sampled
    ensures
      var r' := OnSample(r, s);
      var delay := if s.ackDelay <= 25_000 then s.ackDelay else 25_000;
      var counted := if s.rtt - delay >= r.min || s.rtt - delay >= s.rtt then s.rtt - delay else s.rtt;
      var distance := if r.smoothed >= counted then r.smoothed - counted else counted - r.smoothed;
      && r'.latest == s.rtt && r'.min == (if s.rtt < r.min then s.rtt else r.min)
      && 8 * r'.smoothed <= 7 * r.smoothed + counted < 8 * r'.smoothed + 8
      && 4 * r'.rttvar <= 3 * r.rttvar + distance < 4 * r'.rttvar + 4
  {
  }

  /** The first sample is taken as it is, with half of it as variation. */
  lemma FirstSample(s: Sample)
    ensures OnSample(INITIAL, s) == Rtt(s.rtt, s.rtt, s.rtt, s.rtt / 2, true)
    ensures INITIAL == Rtt(333_000, 333_000, 333_000, 166_500, false)
  {
  }

  /** How far the smoothed value is from v beyond the seven units that rounding can leave. */
  function Gap(r: Rtt, v: nat): nat {
    var d := AbsDiff(r.smoothed, v);
    if d > 7 then d - 7 else 0
  }

  lemma GapShrinks(r: Rtt, v: nat)
    requires r.sampled
    ensures 8 * Gap(OnSample(r, Sample(v, 0)), v) <= 7 * Gap(r, v)
  {
    hide Adjusted;
    assert Adjusted(Least(r.min, v), Sample(v, 0)) == v by { SampleAsIs(r.min, v); }
    var next := (r.smoothed * 7 + v) / 8;
    assert 8 * next <= r.smoothed * 7 + v < 8 * next + 8;
  }

  lemma SampleAsIs(min: nat, v: nat)
    ensures Adjusted(Least(min, v), Sample(v, 0)) == v
  {
  }

  /**
   * When a path settles at a round trip of v, the smoothed value comes closer by
   * an eighth of the rest with every sample, from whatever it was, until only
   * the rounding is left.
   */
  lemma {:induction false} Converges(r: Rtt, v: nat, n: nat)
    requires r.sampled
    ensures
      var r' := OnSamples(r, seq(n, _ => Sample(v, 0)));
      r'.sampled && Gap(r', v) * Pow(8, n) <= Gap(r, v) * Pow(7, n)
  {
    if n > 0 {
      var samples := seq(n, _ => Sample(v, 0));
      assert samples[..n - 1] == seq(n - 1, _ => Sample(v, 0)) && samples[n - 1] == Sample(v, 0);
      Converges(r, v, n - 1);
      var before := OnSamples(r, samples[..n - 1]);
      GapShrinks(before, v);
      var a, b := Gap(before, v), Gap(OnSample(before, Sample(v, 0)), v);
      GapStep(a, b, Gap(r, v), Pow(8, n - 1), Pow(7, n - 1));
    }
  }

  lemma GapStep(a: nat, b: nat, start: nat, eight: nat, seven: nat)
    requires 8 * b <= 7 * a && a * eight <= start * seven
    ensures b * (8 * eight) <= start * (7 * seven)
  {
    calc {
      b * (8 * eight);
      (8 * b) * eight;
    <= { Arithmetic.MulMonotone(8 * b, 7 * a, eight); }
      (7 * a) * eight;
      7 * (a * eight);
    <=
      7 * (start * seven);
      start * (7 * seven);
    }
  }

  /** With samples below 2^61 no intermediate value leaves `u64`. */
  lemma NoOverflow(samples: seq<Sample>, s: Sample)
    requires Below(samples + [s], 0x1FFF_FFFF_FFFF_FFFF)
    ensures
      var r := OnSamples(INITIAL, samples);
      var adjusted := Adjusted(Least(r.min, s.rtt), s);
      && r.smoothed * 7 + adjusted <= U64_MAX
      && r.rttvar * 3 + AbsDiff(r.smoothed, adjusted) <= U64_MAX
      && r.min + MAX_ACK_DELAY <= U64_MAX
  {
    assert (samples + [s])[|samples|] == s;
    if samples != [] {
      assert forall i :: 0 <= i < |samples| ==> (samples + [s])[i] == samples[i];
      EstimatesInRange(samples, 0x1FFF_FFFF_FFFF_FFFF);
    }
  }

  // ----- In-flight packages -----

  datatype Pkg = Pkg(seqno: nat, sentAt: u64, size: u64, ackEliciting: bool)

  datatype Path = Path(
    rtt: Rtt, cwnd: u64, inFlight: u64, ptoCount: u32, packages: map<nat, Pkg>, lastSent: Option<u64>)

  const FRESH := Path(INITIAL, INITIAL_WINDOW, 0, 0, map[], None)

  function SendBudget(p: Path): u64 { SatSub(p.cwnd, p.inFlight) }

  function OnSent(p: Path, k: Pkg): Path {
    var p' := if k.ackEliciting then p.(lastSent := Some(k.sentAt), inFlight := SatAdd(p.inFlight, k.size)) else p;
    p'.(packages := p.packages[k.seqno := k])
  }

  datatype Update = Update(acked: seq<nat>, lost: seq<nat>)

  /** One package leaves: as lost when it is reported missing, as acknowledged otherwise. */
  function Settle(p: Path, s: nat, missing: seq<SeqRange>, delay: nat, now: u64): Path
    requires s in p.packages
  {
    var k := p.packages[s];
    var p' := p.(packages := Without(p.packages, s));
    if InRanges(missing, s) then
      p'.(inFlight := SatSub(p.inFlight, k.size))
    else if k.ackEliciting then
      p'.(inFlight := SatSub(p.inFlight, k.size), cwnd := SatAdd(p.cwnd, k.size),
          rtt := OnSample(p.rtt, Sample(SatSub(now, k.sentAt), delay)))
    else p'
  }

  function Note(u: Update, s: nat, missing: seq<SeqRange>): Update {
    if InRanges(missing, s) then u.(lost := u.lost + [s]) else u.(acked := u.acked + [s])
  }

  /** Settles everything in flight, lowest number first. */
  function SettleAll(p: Path, u: Update, missing: seq<SeqRange>, delay: nat, now: u64): (Path, Update)
    decreases |p.packages|
  {
    if p.packages == map[] then (p, u)
    else
      var s := FirstKey(p.packages);
      WithoutSmaller(p.packages, s);
      SettleAll(Settle(p, s, missing, delay, now), Note(u, s, missing), missing, delay, now)
  }

  function OnAck(p: Path, missing: seq<SeqRange>, delay: nat, now: u64): (Path, Update) {
    var (p', u) := SettleAll(p, Update([], []), missing, delay, now);
    (if u.acked != [] then p'.(ptoCount := 0) else p', u)
  }

  function OnPtoExpired(p: Path): Path {
    p.(ptoCount := if p.ptoCount < 0xFFFF_FFFF then p.ptoCount + 1 else p.ptoCount,
       cwnd := if p.cwnd >= MIN_WINDOW then p.cwnd else MIN_WINDOW)
  }

  /** A fresh controller may send 12000 bytes; a timeout is counted in 32 bits and leaves a window of 2400 at least. */
  lemma FreshAndExpired(p: Path)
    ensures FRESH.cwnd == 12_000 && FRESH.inFlight == 0 && FRESH.ptoCount == 0 && FRESH.packages == map[]
    ensures OnPtoExpired(p).cwnd == (if p.cwnd < 2_400 then 2_400 else p.cwnd)
    ensures OnPtoExpired(p).ptoCount == (if p.ptoCount == 0xFFFF_FFFF then p.ptoCount else p.ptoCount + 1)
    ensures OnPtoExpired(p) == p.(cwnd := OnPtoExpired(p).cwnd, ptoCount := OnPtoExpired(p).ptoCount)
  {
  }

  class MeshPathController {
    const rtt: MeshRttEstimator
    var cwnd: u64
    var bytesInFlight: u64
    var ptoCount: u32
    var inflight: map<nat, Pkg>
    var lastAckElicitingSentAt: Option<u64>

    ghost function View(): Path
      reads this, rtt
    {
      Path(rtt.View(), cwnd, bytesInFlight, ptoCount, inflight, lastAckElicitingSentAt)
    }

    constructor ()
      ensures View() == FRESH && fresh(rtt)
    {
      rtt := new MeshRttEstimator();
      cwnd, bytesInFlight, ptoCount, inflight := INITIAL_WINDOW, 0, 0, map[];
      lastAckElicitingSentAt := None;
    }

    method Sent(package: Pkg)
      modifies this
      ensures View() == OnSent(old(View()), package)
    {
      if package.ackEliciting {
        lastAckElicitingSentAt := Some(package.sentAt);
        bytesInFlight := SatAdd(bytesInFlight, package.size);
      }
      inflight := inflight[package.seqno := package];
    }

    method SettleOne(s: nat, missing: seq<SeqRange>, delay: nat, now: u64, update: Update) returns (update': Update)
      requires s in inflight
      modifies this, rtt
      ensures View() == Settle(old(View()), s, missing, delay, now) && update' == Note(update, s, missing)
    {
      hide InRanges, OnSample;
      var package := inflight[s];
      inflight := Without(inflight, s);
      if InRanges(missing, s) {
        bytesInFlight := SatSub(bytesInFlight, package.size);
        update' := update.(lost := update.lost + [s]);
      } else {
        if package.ackEliciting {
          bytesInFlight := SatSub(bytesInFlight, package.size);
          cwnd := SatAdd(cwnd, package.size);
          rtt.Record(SatSub(now, package.sentAt), delay);
        }
        update' := update.(acked := update.acked + [s]);
      }
    }

    method Acknowledge(ack: AckNack, delay: nat, now: u64) returns (update: Update)
      modifies this, rtt
      ensures (View(), update) == OnAck(old(View()), ack.missing, delay, now)
    {
      hide Settle, Note;
      update := Update([], []);
      ghost var whole := SettleAll(View(), update, ack.missing, delay, now);
      var seqs := SortedKeys(inflight);
      for i := 0 to |seqs|
        invariant SortedKeys(inflight) == seqs[i..]
        invariant SettleAll(View(), update, ack.missing, delay, now) == whole
      {
        assert inflight != map[] && seqs[i] == FirstKey(inflight);
        assert SortedKeys(Without(inflight, seqs[i])) == seqs[i..][1..] == seqs[i + 1..];
        SettleLeaves(View(), seqs[i], ack.missing, delay, now);
        update := SettleOne(seqs[i], ack.missing, delay, now, update);
      }
      assert inflight == map[];
      if update.acked != [] {
        ptoCount := 0;
      }
    }

    method PtoExpired()
      modifies this
      ensures View() == OnPtoExpired(old(View()))
    {
      ptoCount := if ptoCount < 0xFFFF_FFFF then ptoCount + 1 else ptoCount;
      cwnd := if cwnd >= MIN_WINDOW then cwnd else MIN_WINDOW;
    }
  }

  lemma SettleLeaves(p: Path, s: nat, missing: seq<SeqRange>, delay: nat, now: u64)
    requires s in p.packages
    ensures Settle(p, s, missing, delay, now).packages == Without(p.packages, s)
  {
    hide InRanges, OnSample;
  }

  // ----- What one acknowledgement does -----

  predicate Ascending(xs: seq<nat>) {
    forall i, j :: 0 <= i < j < |xs| ==> xs[i] < xs[j]
  }

  /** `xs` lists, in order, the numbers in flight that are (or are not) reported missing. */
  ghost predicate Lists(xs: seq<nat>, packages: map<nat, Pkg>, missing: seq<SeqRange>, lost: bool) {
    Ascending(xs) && forall s :: s in xs <==> s in packages && InRanges(missing, s) == lost
  }

  lemma ListsCons(xs: seq<nat>, m: map<nat, Pkg>, missing: seq<SeqRange>, lost: bool)
    requires m != map[] && Lists(xs, Without(m, FirstKey(m)), missing, lost)
    ensures Lists(if InRanges(missing, FirstKey(m)) == lost then [FirstKey(m)] + xs else xs, m, missing, lost)
  {
    hide InRanges;
    var s := FirstKey(m);
    forall i | 0 <= i < |xs| ensures s < xs[i] {
      assert xs[i] in xs;
    }
  }

  /** Settling from an update only appends to its two lists. */
  lemma {:induction false} SettleAppends(p: Path, u: Update, missing: seq<SeqRange>, delay: nat, now: u64)
    ensures
      var (q, v) := SettleAll(p, Update([], []), missing, delay, now);
      SettleAll(p, u, missing, delay, now) == (q, Update(u.acked + v.acked, u.lost + v.lost))
    decreases |p.packages|
  {
    hide InRanges, Settle;
    if p.packages != map[] {
      var s := FirstKey(p.packages);
      WithoutSmaller(p.packages, s);
      SettleLeaves(p, s, missing, delay, now);
      var p' := Settle(p, s, missing, delay, now);
      var n, nu := Note(Update([], []), s, missing), Note(u, s, missing);
      SettleAppends(p', nu, missing, delay, now);
      SettleAppends(p', n, missing, delay, now);
      var (_, v) := SettleAll(p', Update([], []), missing, delay, now);
      assert nu.acked == u.acked + n.acked && nu.lost == u.lost + n.lost;
      assert nu.acked + v.acked == u.acked + (n.acked + v.acked) && nu.lost + v.lost == u.lost + (n.lost + v.lost);
    } else {
      assert u.acked + [] == u.acked && u.lost + [] == u.lost;
    }
  }

  lemma ListsNone(missing: seq<SeqRange>, lost: bool)
    ensures Lists([], map[], missing, lost)
  {
  }

  lemma {:induction false} SettleSplits(p: Path, missing: seq<SeqRange>, delay: nat, now: u64)
    ensures
      var (q, u) := SettleAll(p, Update([], []), missing, delay, now);
      q.packages == map[] && Lists(u.acked, p.packages, missing, false) && Lists(u.lost, p.packages, missing, true)
    decreases |p.packages|
  {
    hide InRanges, Settle, Lists;
    if p.packages == map[] {
      ListsNone(missing, false);
      ListsNone(missing, true);
    } else {
      var s := FirstKey(p.packages);
      WithoutSmaller(p.packages, s);
      SettleLeaves(p, s, missing, delay, now);
      var p' := Settle(p, s, missing, delay, now);
      SettleSplits(p', missing, delay, now);
      var (_, u) := SettleAll(p', Update([], []), missing, delay, now);
      SettleAppends(p', Note(Update([], []), s, missing), missing, delay, now);
      ListsCons(u.acked, p.packages, missing, false);
      ListsCons(u.lost, p.packages, missing, true);
      var n := Note(Update([], []), s, missing);
      assert n.acked + u.acked == if InRanges(missing, s) == false then [s] + u.acked else u.acked;
      assert n.lost + u.lost == if InRanges(missing, s) == true then [s] + u.lost else u.lost;
    }
  }

  /**
   * An acknowledgement settles every package in flight: those reported missing
   * are lost, the others acknowledged, both listed in ascending order, and the
   * probe count is cleared exactly when something was acknowledged.
   */
  lemma AckSplits(p: Path, missing: seq<SeqRange>, delay: nat, now: u64)
    ensures
      var (q, u) := OnAck(p, missing, delay, now);
      && q.packages == map[]
      && Lists(u.acked, p.packages, missing, false) && Lists(u.lost, p.packages, missing, true)
      && q.ptoCount == (if u.acked != [] then 0 else p.ptoCount) && q.lastSent == p.lastSent
  {
    SettleSplits(p, missing, delay, now);
    SettleKeepsCounts(p, Update([], []), missing, delay, now);
  }

  lemma {:induction false} SettleKeepsCounts(p: Path, u: Update, missing: seq<SeqRange>, delay: nat, now: u64)
    ensures
      var (q, _) := SettleAll(p, u, missing, delay, now);
      q.ptoCount == p.ptoCount && q.lastSent == p.lastSent
    decreases |p.packages|
  {
    hide InRanges, OnSample;
    if p.packages != map[] {
      var s := FirstKey(p.packages);
      WithoutSmaller(p.packages, s);
      SettleKeepsCounts(Settle(p, s, missing, delay, now), Note(u, s, missing), missing, delay, now);
    }
  }

  /** What an acknowledged package adds to the window. */
  function Credit(k: Pkg, missing: seq<SeqRange>, s: nat): nat {
    if k.ackEliciting && !InRanges(missing, s) then k.size else 0
  }

  function AckedBytes(m: map<nat, Pkg>, missing: seq<SeqRange>): nat
    decreases |m|
  {
    if m == map[] then 0
    else
      var s := FirstKey(m);
      WithoutSmaller(m, s);
      Credit(m[s], missing, s) + AckedBytes(Without(m, s), missing)
  }

  /** The round-trip samples an acknowledgement yields, lowest number first. */
  function AckedSamples(m: map<nat, Pkg>, missing: seq<SeqRange>, delay: nat, now: u64): seq<Sample>
    decreases |m|
  {
    if m == map[] then []
    else
      var s := FirstKey(m);
      WithoutSmaller(m, s);
      (if m[s].ackEliciting && !InRanges(missing, s) then [Sample(SatSub(now, m[s].sentAt), delay)] else [])
      + AckedSamples(Without(m, s), missing, delay, now)
  }

  lemma {:induction false} OnSamplesCons(r: Rtt, s: Sample, rest: seq<Sample>)
    ensures OnSamples(r, [s] + rest) == OnSamples(OnSample(r, s), rest)
    decreases |rest|
  {
    hide OnSample;
    if rest == [] {
      assert ([s] + rest)[..0] == [];
    } else {
      var n := |rest| - 1;
      OnSamplesCons(r, s, rest[..n]);
      assert ([s] + rest)[..n + 1] == [s] + rest[..n] && ([s] + rest)[n + 1] == rest[n];
    }
  }

  function Capped(bytes: nat): u64 {
    if bytes <= U64_MAX then bytes else U64_MAX
  }

  lemma SettleOneGrows(p: Path, s: nat, missing: seq<SeqRange>, delay: nat, now: u64, bytes: nat, rest: seq<Sample>)
    requires s in p.packages
    ensures
      var k, p' := p.packages[s], Settle(p, s, missing, delay, now);
      var sample := if k.ackEliciting && !InRanges(missing, s) then [Sample(SatSub(now, k.sentAt), delay)] else [];
      && Capped(p'.cwnd + bytes) == Capped(p.cwnd + Credit(k, missing, s) + bytes)
      && OnSamples(p'.rtt, rest) == OnSamples(p.rtt, sample + rest)
  {
    hide InRanges, OnSample;
    OnSamplesCons(p.rtt, Sample(SatSub(now, p.packages[s].sentAt), delay), rest);
    assert [] + rest == rest;
  }

  lemma {:induction false} SettleGrows(p: Path, u: Update, missing: seq<SeqRange>, delay: nat, now: u64)
    ensures
      var (q, _) := SettleAll(p, u, missing, delay, now);
      && q.cwnd == Capped(p.cwnd + AckedBytes(p.packages, missing))
      && q.rtt == OnSamples(p.rtt, AckedSamples(p.packages, missing, delay, now))
    decreases |p.packages|
  {
    hide InRanges, OnSample, Settle, Credit, Note;
    if p.packages != map[] {
      var s := FirstKey(p.packages);
      var left := Without(p.packages, s);
      WithoutSmaller(p.packages, s);
      SettleLeaves(p, s, missing, delay, now);
      SettleGrows(Settle(p, s, missing, delay, now), Note(u, s, missing), missing, delay, now);
      SettleOneGrows(p, s, missing, delay, now, AckedBytes(left, missing), AckedSamples(left, missing, delay, now));
    }
  }

  // ----- Bytes in flight -----

  function Load(k: Pkg): nat {
    if k.ackEliciting then k.size else 0
  }

  /** Ack-eliciting bytes in flight. */
  function Weight(m: map<nat, Pkg>): nat
    decreases |m|
  {
    if m == map[] then 0
    else
      WithoutSmaller(m, FirstKey(m));
      Load(m[FirstKey(m)]) + Weight(Without(m, FirstKey(m)))
  }

  lemma {:induction false} WeightSplit(m: map<nat, Pkg>, s: nat)
    requires s in m
    ensures Weight(m) == Load(m[s]) + Weight(Without(m, s))
    decreases |m|
  {
    hide Load;
    var first := FirstKey(m);
    if s != first {
      WithoutSmaller(m, first);
      WeightSplit(Without(m, first), s);
      var rest := Without(m, s);
      assert first in rest && FirstKey(rest) == first;
      assert Without(rest, first) == Without(Without(m, first), s);
    }
  }

  /** The packages in flight that are not reported missing. */
  function NotMissing(m: map<nat, Pkg>, missing: seq<SeqRange>): map<nat, Pkg> {
    map s | s in m && !InRanges(missing, s) :: m[s]
  }

  lemma {:induction false} AckedBytesAreWeight(m: map<nat, Pkg>, missing: seq<SeqRange>)
    ensures AckedBytes(m, missing) == Weight(NotMissing(m, missing))
    decreases |m|
  {
    hide InRanges;
    if m == map[] {
      assert NotMissing(m, missing) == map[];
    } else {
      var s := FirstKey(m);
      WithoutSmaller(m, s);
      AckedBytesAreWeight(Without(m, s), missing);
      var kept := NotMissing(m, missing);
      if s in kept {
        assert FirstKey(kept) == s && Without(kept, s) == NotMissing(Without(m, s), missing);
      } else {
        assert kept == NotMissing(Without(m, s), missing);
      }
    }
  }

  /** The window grows by the ack-eliciting bytes not reported missing, and the estimator takes their samples. */
  lemma AckGrows(p: Path, missing: seq<SeqRange>, delay: nat, now: u64)
    ensures
      var (q, _) := OnAck(p, missing, delay, now);
      && q.cwnd == Capped(p.cwnd + Weight(NotMissing(p.packages, missing)))
      && q.rtt == OnSamples(p.rtt, AckedSamples(p.packages, missing, delay, now))
  {
    SettleGrows(p, Update([], []), missing, delay, now);
    AckedBytesAreWeight(p.packages, missing);
  }

  /** What the number `s` weighs in flight, if anything. */
  function Held(m: map<nat, Pkg>, s: nat): nat {
    if s in m then Load(m[s]) else 0
  }

  lemma WeightInsert(m: map<nat, Pkg>, k: Pkg)
    ensures Weight(m[k.seqno := k]) + Held(m, k.seqno) == Weight(m) + Load(k)
  {
    hide Load;
    var m' := m[k.seqno := k];
    WeightSplit(m', k.seqno);
    assert Without(m', k.seqno) == Without(m, k.seqno);
    if k.seqno in m {
      WeightSplit(m, k.seqno);
    } else {
      assert Without(m, k.seqno) == m;
    }
  }

  /**
   * The counter never exceeds the bytes in flight once it starts below them, and
   * an acknowledgement brings it to zero even when it reports as missing a
   * package that was never counted.
   */
  lemma {:induction false} SettleClears(p: Path, u: Update, missing: seq<SeqRange>, delay: nat, now: u64)
    requires p.inFlight <= Weight(p.packages)
    ensures SettleAll(p, u, missing, delay, now).0.inFlight == 0
    decreases |p.packages|
  {
    hide InRanges, OnSample;
    if p.packages != map[] {
      var s := FirstKey(p.packages);
      WithoutSmaller(p.packages, s);
      SettleClears(Settle(p, s, missing, delay, now), Note(u, s, missing), missing, delay, now);
    }
  }

  /** Sending keeps the count exact if and only if what it replaces weighs just what saturation drops. */
  lemma SentStaysExact(p: Path, k: Pkg)
    requires p.inFlight == Weight(p.packages)
    ensures
      var p' := OnSent(p, k);
      p'.inFlight == Weight(p'.packages)
      <==> Held(p.packages, k.seqno) == p.inFlight + Load(k) - Capped(p.inFlight + Load(k))
  {
    WeightInsert(p.packages, k);
  }

  datatype Op = Send(k: Pkg) | Ack(missing: seq<SeqRange>, delay: nat, now: u64) | Expire

  function Apply(p: Path, op: Op): Path {
    match op
    case Send(k) => OnSent(p, k)
    case Ack(missing, delay, now) => OnAck(p, missing, delay, now).0
    case Expire => OnPtoExpired(p)
  }

  function Run(p: Path, ops: seq<Op>): Path {
    if ops == [] then p else Apply(Run(p, ops[..|ops| - 1]), ops[|ops| - 1])
  }

  /** No send of the run replaces a counted package or overflows the counter. */
  ghost predicate Orderly(p: Path, ops: seq<Op>) {
    ops != [] ==>
      var q, op := Run(p, ops[..|ops| - 1]), ops[|ops| - 1];
      Orderly(p, ops[..|ops| - 1])
      && (op.Send? ==> Held(q.packages, op.k.seqno) == 0 && q.inFlight + Load(op.k) <= U64_MAX)
  }

  /** Over every orderly run the counter is the ack-eliciting bytes in flight, whatever is acknowledged or lost. */
  lemma {:induction false} BytesInFlightExact(ops: seq<Op>)
    requires Orderly(FRESH, ops)
    ensures var p := Run(FRESH, ops); p.inFlight == Weight(p.packages)
  {
    if ops != [] {
      var init, op := ops[..|ops| - 1], ops[|ops| - 1];
      BytesInFlightExact(init);
      var p := Run(FRESH, init);
      match op
      case Send(k) => SentStaysExact(p, k);
      case Ack(missing, delay, now) =>
        SettleClears(p, Update([], []), missing, delay, now);
        AckSplits(p, missing, delay, now);
      case Expire =>
    }
  }

  lemma WindowGrows(p: Path, op: Op)
    ensures Apply(p, op).cwnd >= p.cwnd
  {
    hide OnAck, Weight;
    if op.Ack? { AckGrows(p, op.missing, op.delay, op.now); }
  }

  /** The window never shrinks, so the floor applied on a timeout never acts. */
  lemma {:induction false} WindowNeverShrinks(ops: seq<Op>)
    ensures
      var p := Run(FRESH, ops);
      p.cwnd >= INITIAL_WINDOW && OnPtoExpired(p).cwnd == p.cwnd
  {
    hide Apply;
    if ops != [] {
      WindowNeverShrinks(ops[..|ops| - 1]);
      WindowGrows(Run(FRESH, ops[..|ops| - 1]), ops[|ops| - 1]);
    }
  }

  /** Every send of the run fits the budget of the state it is made in. */
  ghost predicate WithinBudget(p: Path, ops: seq<Op>) {
    ops != [] ==>
      var q, op := Run(p, ops[..|ops| - 1]), ops[|ops| - 1];
      WithinBudget(p, ops[..|ops| - 1]) && (op.Send? ==> Load(op.k) <= SendBudget(q))
  }

  lemma {:induction false} SettleFrees(p: Path, u: Update, missing: seq<SeqRange>, delay: nat, now: u64)
    ensures SettleAll(p, u, missing, delay, now).0.inFlight <= p.inFlight
    decreases |p.packages|
  {
    hide InRanges, OnSample;
    if p.packages != map[] {
      var s := FirstKey(p.packages);
      WithoutSmaller(p.packages, s);
      SettleFrees(Settle(p, s, missing, delay, now), Note(u, s, missing), missing, delay, now);
    }
  }

  /** A sender that keeps to the budget never has more counted in flight than the window, in any run. */
  lemma {:induction false} BudgetKeepsWindow(ops: seq<Op>)
    requires WithinBudget(FRESH, ops)
    ensures var p := Run(FRESH, ops); p.inFlight <= p.cwnd
  {
    if ops != [] {
      hide SettleAll;
      var init, op := ops[..|ops| - 1], ops[|ops| - 1];
      BudgetKeepsWindow(init);
      var p := Run(FRESH, init);
      WindowGrows(p, op);
      if op.Ack? { SettleFrees(p, Update([], []), op.missing, op.delay, op.now); }
    }
  }

  /** The budget is exact: one byte more and the window is exceeded, short of saturation. */
  lemma BudgetIsLargest(p: Path, k: Pkg)
    requires p.inFlight <= p.cwnd < U64_MAX
    ensures OnSent(p, k).inFlight <= p.cwnd <==> Load(k) <= SendBudget(p)
  {
  }

  // ----- Sender and receiver together -----

  /** Some number in flight lies beyond everything the receiver has seen. */
  ghost predicate Ahead(m: map<nat, Pkg>, f: Family) {
    exists x :: x in m && f.next <= x && (f.highest.None? || f.highest.value < x)
  }

  lemma ArrivedIff(s: Session, first: nat, x: nat)
    requires Inv(s, first) && first <= x
    ensures x in s.arrived <==> x < s.family.next || x in s.family.buffer
  {
    if x < s.family.next {
      assert Files(s.arrived, first + (x - first), s.delivered[x - first]);
    }
  }

  /**
   * Driving the sender with the receiver's own report: a package declared lost
   * never arrived; and every package declared acknowledged did arrive if and
   * only if nothing in flight lies beyond what the receiver has seen.
   */
  lemma AckedMeansArrived(p: Path, first: nat, window: u16, packages: seq<Package>, delay: nat, now: u64)
    requires forall x :: x in p.packages ==> first <= x
    ensures
      var s := Reorder.Run(Open(first, window), packages);
      var (_, u) := OnAck(p, AckSnapshot(s.family).missing, delay, now);
      && (forall x :: x in u.lost ==> x !in s.arrived)
      && ((forall x :: x in u.acked ==> x in s.arrived) <==> !Ahead(p.packages, s.family))
  {
    hide Reorder.Run, Inv, AckSnapshot, OnAck, InRanges, Ascending;
    RunKeeps(Open(first, window), first, packages) by { OpenInv(first, window); }
    var s := Reorder.Run(Open(first, window), packages);
    var missing := AckSnapshot(s.family).missing;
    AckSplits(p, missing, delay, now);
    forall x | x in p.packages
      ensures InRanges(missing, x) ==> x !in s.arrived
      ensures !InRanges(missing, x) ==>
        (x !in s.arrived <==> s.family.next <= x && (s.family.highest.None? || s.family.highest.value < x))
    {
      SettledArrival(s, first, x);
    }
    var (_, u) := OnAck(p, missing, delay, now);
    if Ahead(p.packages, s.family) {
      var x :| x in p.packages && s.family.next <= x && (s.family.highest.None? || s.family.highest.value < x);
      MissingIsExact(s.family, x);
      assert x in u.acked && x !in s.arrived;
    }
  }

  lemma OpenInv(first: nat, window: u16)
    ensures Inv(Open(first, window), first)
  {
  }

  lemma SettledArrival(s: Session, first: nat, x: nat)
    requires Inv(s, first) && first <= x
    ensures
      var f, missing := s.family, AckSnapshot(s.family).missing;
      && (InRanges(missing, x) ==> x !in s.arrived)
      && (!InRanges(missing, x) ==> (x !in s.arrived <==> f.next <= x && (f.highest.None? || f.highest.value < x)))
  {
    hide AckSnapshot, InRanges;
    MissingIsExact(s.family, x);
    ArrivedIff(s, first, x);
  }

  /** A concrete case: packages 0 and 1 are in flight, only 0 has arrived, and its report acknowledges both. */
  lemma UnseenIsAcked(k0: Pkg, k1: Pkg)
    ensures
      var p := FRESH.(packages := map[0 := k0, 1 := k1]);
      var s := Reorder.Run(Open(0, 16), [Package(0, [])]);
      1 in OnAck(p, AckSnapshot(s.family).missing, 0, 0).1.acked && 1 !in s.arrived
  {
    hide OnAck;
    var p := FRESH.(packages := map[0 := k0, 1 := k1]);
    var s := Step(Open(0, 16), Package(0, []));
    assert Reorder.Run(Open(0, 16), [Package(0, [])]) == s;
    AckSplits(p, AckSnapshot(s.family).missing, 0, 0);
    MissingIsExact(s.family, 1);
  }
}
