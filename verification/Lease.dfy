/** Source leases: a timed table that pins each source to a candidate and rotates it. */
module Lease {
  import opened MachineTypes
  import opened Candidates
  import opened Rendezvous

  datatype MaxAgePolicy = Off | Soft | Hard

  datatype Config = Config(idleTimeout: u64, maxAge: u64, policy: MaxAgePolicy, cooldown: u64)

  datatype Activity = Activity(activeFlows: u32, idleSince: Option<u64>)

  datatype Reason = New | Hit | IdleExpired | MaxAgeSoft | MaxAgeHard | Unhealthy

  datatype Decision = Decision(candidate: string, reason: Reason, generation: nat)

  datatype Entry = Entry(candidate: string, createdAt: u64, lastSeenAt: u64, generation: nat, cooldownUntil: u64)

  /** What one call brings. */
  datatype Call = Call(key: string, cands: seq<Candidate>, now: u64, activity: Option<Activity>)

  type Entries = map<string, Entry>

  function Normalized(c: Config): Config {
    c.(idleTimeout := if c.idleTimeout > 1 then c.idleTimeout else 1,
       maxAge := if c.maxAge > 1 then c.maxAge else 1)
  }

  predicate Offers(cands: seq<Candidate>, id: string) {
    exists i :: 0 <= i < |cands| && cands[i].id == id
  }

  predicate IsIdle(c: Config, e: Entry, now: u64, activity: Option<Activity>) {
    match activity
    case Some(a) =>
      if a.activeFlows > 0 then false
      else if a.idleSince.Some? then SatSub(now, a.idleSince.value) >= c.idleTimeout
      else SatSub(now, e.lastSeenAt) >= c.idleTimeout
    case None => SatSub(now, e.lastSeenAt) >= c.idleTimeout
  }

  predicate IsAged(c: Config, e: Entry, now: u64) {
    c.policy != Off && SatSub(now, e.createdAt) >= c.maxAge && now >= e.cooldownUntil
  }

  /** Why the call is answered as it is. */
  function ReasonFor(c: Config, entries: Entries, call: Call): Reason {
    if call.key !in entries then New
    else
      var e := entries[call.key];
      if !Offers(call.cands, e.candidate) then Unhealthy
      else if IsIdle(c, e, call.now, call.activity) then IdleExpired
      else if IsAged(c, e, call.now) then (if c.policy.Soft? then MaxAgeSoft else MaxAgeHard)
      else Hit
  }

  function DrawFor(s: Score, entries: Entries, call: Call, reason: Reason): Draw {
    if call.key !in entries then Draw(s, call.key, 0, None)
    else
      var e := entries[call.key];
      Draw(s, call.key, e.generation + 1,
           if reason.MaxAgeHard? && |call.cands| > 1 then Some(e.candidate) else None)
  }

  datatype Outcome = Outcome(decision: Option<Decision>, entries: Entries)

  function Leased(c: Config, call: Call, candidate: string, generation: nat): Entry {
    Entry(candidate, call.now, call.now, generation, SatAdd(call.now, c.cooldown))
  }

  /** The answer to one call and the table it leaves. */
  function Step(c: Config, s: Score, entries: Entries, call: Call): Outcome {
    if call.cands == [] then Outcome(None, map[])
    else
      var reason := ReasonFor(c, entries, call);
      if reason.Hit? then
        var e := entries[call.key];
        Outcome(Some(Decision(e.candidate, Hit, e.generation)), entries[call.key := e.(lastSeenAt := call.now)])
      else
        var d := DrawFor(s, entries, call, reason);
        match Winner(d, call.cands)
        case None => Outcome(None, entries)
        case Some(w) =>
          Outcome(Some(Decision(call.cands[w].id, reason, d.generation)),
                  entries[call.key := Leased(c, call, call.cands[w].id, d.generation)])
  }

  class SourceLeaseRotate {
    const config: Config
    const score: Score
    var entries: Entries

    constructor (config: Config, score: Score)
      ensures this.config == Normalized(config) && this.score == score && entries == map[]
    {
      this.config := Normalized(config);
      this.score := score;
      entries := map[];
    }

    method Pick(call: Call) returns (decision: Option<Decision>)
      modifies this
      ensures Outcome(decision, entries) == Step(config, score, old(entries), call)
    {
      if |call.cands| == 0 {
        entries := map[];
        return None;
      }
      var active := set i | 0 <= i < |call.cands| :: call.cands[i].id;
      var reason, generation, exclude := New, 0, None;
      if call.key in entries {
        var e := entries[call.key];
        generation := e.generation + 1;
        if e.candidate !in active {
          reason := Unhealthy;
        } else if IsIdle(config, e, call.now, call.activity) {
          reason := IdleExpired;
        } else if && config.policy != Off && SatSub(call.now, e.createdAt) >= config.maxAge
                  && call.now >= e.cooldownUntil {
          reason := match config.policy case Off => Hit case Soft => MaxAgeSoft case Hard => MaxAgeHard;
          if config.policy.Hard? && |call.cands| > 1 {
            exclude := Some(e.candidate);
          }
        } else {
          entries := entries[call.key := e.(lastSeenAt := call.now)];
          return Some(Decision(e.candidate, Hit, e.generation));
        }
      }
      var picked := Rendezvous.Pick(Draw(score, call.key, generation, exclude), call.cands);
      if picked.None? {
        return None;
      }
      entries := entries[call.key := Leased(config, call, picked.value, generation)];
      return Some(Decision(picked.value, reason, generation));
    }
  }

  // ----- What every single call keeps -----

  lemma WinnerOffered(d: Draw, cands: seq<Candidate>)
    requires Winner(d, cands).Some?
    ensures Offers(cands, cands[Winner(d, cands).value].id)
    ensures d.Eligible(cands[Winner(d, cands).value])
  {
    WinnerWins(d, cands);
  }

  /** A decision always names a current candidate, and the table records it. */
  lemma DecisionIsOffered(c: Config, s: Score, entries: Entries, call: Call)
    ensures
      var o := Step(c, s, entries, call);
      o.decision.Some? ==>
        && Offers(call.cands, o.decision.value.candidate)
        && call.key in o.entries
        && o.entries[call.key].candidate == o.decision.value.candidate
        && o.entries[call.key].generation == o.decision.value.generation
  {
    if call.cands != [] {
      var reason := ReasonFor(c, entries, call);
      if !reason.Hit? {
        var d := DrawFor(s, entries, call, reason);
        if Winner(d, call.cands).Some? { WinnerOffered(d, call.cands); }
      }
    }
  }

  /** Only an empty offer, or a forced switch with no other id to switch to, goes unanswered. */
  lemma AnsweredIff(c: Config, s: Score, entries: Entries, call: Call)
    ensures
      Step(c, s, entries, call).decision.None? <==>
        || call.cands == []
        || (&& ReasonFor(c, entries, call).MaxAgeHard? && |call.cands| > 1
            && forall i :: 0 <= i < |call.cands| ==> call.cands[i].id == entries[call.key].candidate)
  {
    if call.cands != [] {
      var reason := ReasonFor(c, entries, call);
      if !reason.Hit? {
        var d := DrawFor(s, entries, call, reason);
        WinnerWins(d, call.cands);
        if d.exclude.None? { assert d.Eligible(call.cands[0]); }
      }
    }
  }

  /** A hit leaves the generation alone; every re-pick raises it by exactly one; other sources are untouched. */
  lemma GenerationStep(c: Config, s: Score, entries: Entries, call: Call)
    requires call.cands != []
    ensures
      var o := Step(c, s, entries, call);
      && (forall k :: k != call.key ==>
            (k in o.entries <==> k in entries) && (k in entries ==> o.entries[k] == entries[k]))
      && (o.decision.Some? && call.key in entries ==>
            o.decision.value.generation ==
            entries[call.key].generation + (if o.decision.value.reason.Hit? then 0 else 1))
      && (o.decision.Some? && call.key !in entries ==>
            o.decision.value.reason.New? && o.decision.value.generation == 0)
  {
  }

  /** What a call leaves in the table for one source. */
  lemma StepEntry(c: Config, s: Score, entries: Entries, call: Call, key: string)
    ensures
      var o := Step(c, s, entries, call);
      && (call.cands == [] ==> o.decision.None? && o.entries == map[])
      && (call.cands != [] && (call.key != key || o.decision.None?) ==>
            (key in o.entries <==> key in entries) && (key in entries ==> o.entries[key] == entries[key]))
      && (call.key == key && o.decision.Some? ==>
            var d := o.decision.value;
            && key in o.entries
            && (d.reason.Hit? ==>
                  && key in entries && o.entries[key] == entries[key].(lastSeenAt := call.now)
                  && d == Decision(entries[key].candidate, Hit, entries[key].generation))
            && (!d.reason.Hit? ==> o.entries[key] == Leased(c, call, d.candidate, d.generation)))
  {
  }

  /** A hard rotation moves to another id whenever another id is offered. */
  lemma HardSwitches(c: Config, s: Score, entries: Entries, call: Call)
    requires ReasonFor(c, entries, call).MaxAgeHard?
    requires exists i :: 0 <= i < |call.cands| && call.cands[i].id != entries[call.key].candidate
    ensures
      var o := Step(c, s, entries, call);
      o.decision.Some? && o.decision.value.candidate != entries[call.key].candidate
  {
    assert |call.cands| > 1;
    var d := DrawFor(s, entries, call, MaxAgeHard);
    WinnerWins(d, call.cands);
    AnsweredIff(c, s, entries, call);
  }

  /** The score of a candidate for a source and generation; a weight of 0 counts as 1. */
  function Scored(s: Score, key: string, generation: nat, c: Candidate): real {
    s(key, generation, c.id, if c.weight == 0 then 1 else c.weight)
  }

  /** The first best score among the candidates whose id is not barred. */
  ghost predicate BestFor(s: Score, key: string, generation: nat, cands: seq<Candidate>, barred: Option<string>, w: nat)
  {
    && w < |cands| && barred != Some(cands[w].id)
    && forall i :: 0 <= i < |cands| && barred != Some(cands[i].id) ==>
         var mine, best := Scored(s, key, generation, cands[i]), Scored(s, key, generation, cands[w]);
         mine <= best && (i < w ==> mine < best)
  }

  /**
   * A re-pick takes the first best score for the source and the new generation;
   * a hard rotation with more than one candidate bars the id it leaves.
   */
  lemma RepickIsBest(c: Config, s: Score, entries: Entries, call: Call)
    requires Step(c, s, entries, call).decision.Some? && !Step(c, s, entries, call).decision.value.reason.Hit?
    ensures
      var d := Step(c, s, entries, call).decision.value;
      && (d.reason.MaxAgeHard? ==> call.key in entries)
      && var barred := if d.reason.MaxAgeHard? && |call.cands| > 1 then Some(entries[call.key].candidate) else None;
         exists w: nat :: BestFor(s, call.key, d.generation, call.cands, barred, w) && call.cands[w].id == d.candidate
  {
    var d := DrawFor(s, entries, call, ReasonFor(c, entries, call));
    WinnerWins(d, call.cands);
    assert forall x :: d.ScoreOf(x) == Scored(s, call.key, d.generation, x);
    assert BestFor(s, call.key, d.generation, call.cands, d.exclude, Winner(d, call.cands).value);
  }

  /** Both limits are at least one millisecond, whatever is configured. */
  lemma LimitsAtLeastOne(c: Config)
    ensures
      var n := Normalized(c);
      && n.idleTimeout >= 1 && n.maxAge >= 1 && n.policy == c.policy && n.cooldown == c.cooldown
      && (c.idleTimeout >= 1 ==> n.idleTimeout == c.idleTimeout) && (c.maxAge >= 1 ==> n.maxAge == c.maxAge)
  {
  }

  // ----- What every run keeps -----

  function Decisions(c: Config, s: Score, entries: Entries, calls: seq<Call>): (ds: seq<Option<Decision>>)
    ensures |ds| == |calls|
    decreases |calls|
  {
    if calls == [] then [] else
      var o := Step(c, s, entries, calls[0]);
      [o.decision] + Decisions(c, s, o.entries, calls[1..])
  }

  /** The table after the first n calls of a run. */
  function TableAt(c: Config, s: Score, start: Entries, calls: seq<Call>, n: nat): Entries
    requires n <= |calls|
  {
    if n == 0 then start else Step(c, s, TableAt(c, s, start, calls, n - 1), calls[n - 1]).entries
  }

  function AnswerAt(c: Config, s: Score, start: Entries, calls: seq<Call>, n: nat): Option<Decision>
    requires n < |calls|
  {
    Step(c, s, TableAt(c, s, start, calls, n), calls[n]).decision
  }

  lemma {:induction false} AnswersFrom(c: Config, s: Score, start: Entries, calls: seq<Call>, i: nat, j: nat)
    requires i <= j < |calls|
    ensures Decisions(c, s, TableAt(c, s, start, calls, i), calls[i..])[j - i] == AnswerAt(c, s, start, calls, j)
    decreases j - i
  {
    hide Step;
    assert calls[i..][0] == calls[i] && calls[i..][1..] == calls[i + 1..];
    if i < j { AnswersFrom(c, s, start, calls, i + 1, j); }
  }

  /** The decisions of a run, call by call. */
  lemma AnswersAreDecisions(c: Config, s: Score, start: Entries, calls: seq<Call>)
    ensures forall j :: 0 <= j < |calls| ==> Decisions(c, s, start, calls)[j] == AnswerAt(c, s, start, calls, j)
  {
    forall j | 0 <= j < |calls| ensures Decisions(c, s, start, calls)[j] == AnswerAt(c, s, start, calls, j) {
      AnswersFrom(c, s, start, calls, 0, j);
      assert calls[0..] == calls;
    }
  }

  /** No call from lo on empties the table, and no answer to the key before hi re-picks it. */
  ghost predicate Undisturbed(key: string, calls: seq<Call>, ds: seq<Option<Decision>>, lo: nat, hi: nat)
    requires hi <= |calls| == |ds|
  {
    forall m :: lo <= m < hi ==>
      calls[m].cands != [] && (calls[m].key == key ==> ds[m].None? || ds[m].value.reason.Hit?)
  }

  predicate Rotates(d: Option<Decision>) {
    d.Some? && (d.value.reason.MaxAgeSoft? || d.value.reason.MaxAgeHard?)
  }

  predicate Picks(d: Option<Decision>) {
    d.Some? && !d.value.reason.Hit?
  }

  lemma {:induction false} LeaseKept(c: Config, s: Score, start: Entries, calls: seq<Call>, i: nat, n: nat)
    requires i < n <= |calls| && Picks(AnswerAt(c, s, start, calls, i))
    requires Undisturbed(calls[i].key, calls, Decisions(c, s, start, calls), i + 1, n)
    ensures
      var t := TableAt(c, s, start, calls, n);
      && calls[i].key in t && t[calls[i].key].createdAt == calls[i].now
      && t[calls[i].key].cooldownUntil == SatAdd(calls[i].now, c.cooldown)
    decreases n
  {
    hide Step, Decisions;
    AnswersAreDecisions(c, s, start, calls);
    StepEntry(c, s, TableAt(c, s, start, calls, n - 1), calls[n - 1], calls[i].key);
    if n > i + 1 { LeaseKept(c, s, start, calls, i, n - 1); }
  }

  /**
   * A max-age rotation at call j comes at least the maximum age, and the
   * cooldown up to the end of the clock, after the pick at call i it replaces.
   */
  lemma RotationSpacing(c: Config, s: Score, entries: Entries, calls: seq<Call>, i: nat, j: nat)
    requires i < j < |calls| && calls[i].key == calls[j].key && c.maxAge >= 1
    requires
      var ds := Decisions(c, s, entries, calls);
      Picks(ds[i]) && Rotates(ds[j]) && Undisturbed(calls[j].key, calls, ds, i + 1, j)
    ensures calls[j].now >= calls[i].now + c.maxAge
    ensures calls[j].now >= SatAdd(calls[i].now, c.cooldown)
  {
    AnswersAreDecisions(c, s, entries, calls);
    LeaseKept(c, s, entries, calls, i, j);
    hide Decisions;
  }

  /** The call offers the pinned id and reports live flows for the source. */
  predicate KeepsBusy(call: Call, key: string, id: string) {
    && call.cands != []
    && (call.key == key ==> Offers(call.cands, id) && call.activity.Some? && call.activity.value.activeFlows > 0)
  }

  /**
   * With rotation off, a source with live flows whose candidate stays offered is
   * answered with that candidate and generation for ever.
   */
  lemma {:induction false} BusyLeaseNeverMoves(c: Config, s: Score, entries: Entries, calls: seq<Call>,
                                               key: string, j: nat)
    requires c.policy.Off? && key in entries && j < |calls| && calls[j].key == key
    requires forall m :: 0 <= m <= j ==> KeepsBusy(calls[m], key, entries[key].candidate)
    ensures Decisions(c, s, entries, calls)[j] == Some(Decision(entries[key].candidate, Hit, entries[key].generation))
    decreases j
  {
    assert KeepsBusy(calls[0], key, entries[key].candidate);
    if j > 0 {
      var o := Step(c, s, entries, calls[0]);
      assert forall m :: 0 <= m <= j - 1 ==> calls[1..][m] == calls[m + 1];
      BusyLeaseNeverMoves(c, s, o.entries, calls[1..], key, j - 1);
    }
  }

  /** Generations count re-picks, so they stay below the number of calls and inside `u64`. */
  lemma {:induction false} GenerationBound(c: Config, s: Score, entries: Entries, calls: seq<Call>, bound: nat, j: nat)
    requires j < |calls| && forall k :: k in entries ==> entries[k].generation < bound
    ensures
      var d := Decisions(c, s, entries, calls)[j];
      d.Some? ==> d.value.generation <= bound + j
    decreases j
  {
    if j > 0 { GenerationBound(c, s, Step(c, s, entries, calls[0]).entries, calls[1..], bound + 1, j - 1); }
  }
}
