/**
 * Leases over whole runs: every answer follows from the calls and answers
 * before it, without looking at the table.
 */
module LeaseRuns {
  import opened MachineTypes
  import opened Candidates
  import opened Rendezvous
  import opened Lease

  // ----- History -----

  /** The last call before n, since the table was last emptied, at which the source was given a candidate. */
  function LastPick(c: Config, s: Score, calls: seq<Call>, key: string, n: nat): (p: Option<nat>)
    requires n <= |calls|
    ensures p.Some? ==> p.value < n && calls[p.value].key == key
  {
    if n == 0 || calls[n - 1].cands == [] then None
    else
      var d := AnswerAt(c, s, map[], calls, n - 1);
      if calls[n - 1].key == key && d.Some? && !d.value.reason.Hit? then Some(n - 1)
      else LastPick(c, s, calls, key, n - 1)
  }

  /** The last call before n that was answered for the source. */
  function LastAnswer(c: Config, s: Score, calls: seq<Call>, key: string, n: nat): (p: Option<nat>)
    requires n <= |calls|
    ensures p.Some? ==> p.value < n && calls[p.value].key == key
  {
    if n == 0 || calls[n - 1].cands == [] then None
    else if calls[n - 1].key == key && AnswerAt(c, s, map[], calls, n - 1).Some? then Some(n - 1)
    else LastAnswer(c, s, calls, key, n - 1)
  }

  /** The table holds what the history says and nothing else. */
  ghost predicate Agrees(c: Config, s: Score, calls: seq<Call>, key: string, n: nat)
    requires n <= |calls|
  {
    var t, p, q := TableAt(c, s, map[], calls, n), LastPick(c, s, calls, key, n), LastAnswer(c, s, calls, key, n);
    && (key in t <==> p.Some?) && (p.Some? <==> q.Some?)
    && (p.Some? ==>
          var d, picked := AnswerAt(c, s, map[], calls, p.value), calls[p.value].now;
          && d.Some?
          && t[key] == Entry(d.value.candidate, picked, calls[q.value].now, d.value.generation,
                             SatAdd(picked, c.cooldown)))
  }

  lemma {:induction false} TableFromHistory(c: Config, s: Score, calls: seq<Call>, key: string, n: nat)
    requires n <= |calls|
    ensures Agrees(c, s, calls, key, n)
  {
    if n > 0 {
      hide Step;
      TableFromHistory(c, s, calls, key, n - 1);
      StepEntry(c, s, TableAt(c, s, map[], calls, n - 1), calls[n - 1], key);
    }
  }

  // ----- Every answer from the history -----

  /** How long the source is quiet at the call: not at all with live flows, else since the reported or last time. */
  function QuietFor(call: Call, last: u64): Option<nat> {
    if call.activity.Some? && call.activity.value.activeFlows > 0 then None
    else if call.activity.Some? && call.activity.value.idleSince.Some? then
      Some(SatSub(call.now, call.activity.value.idleSince.value))
    else Some(SatSub(call.now, last))
  }

  /** The answer d, given that id was picked at time `picked` and the source was last answered at `last`. */
  ghost predicate Follows(c: Config, call: Call, d: Decision, id: string, generation: nat, picked: u64, last: u64) {
    var quiet := QuietFor(call, last);
    var offered, idle := Offers(call.cands, id), quiet.Some? && quiet.value >= c.idleTimeout;
    && !d.reason.New?
    && (d.reason.Unhealthy? <==> !offered)
    && (d.reason.IdleExpired? <==> offered && idle)
    && (d.reason.MaxAgeSoft? || d.reason.MaxAgeHard? <==>
          && offered && !idle && !c.policy.Off?
          && SatSub(call.now, picked) >= c.maxAge && call.now >= SatAdd(picked, c.cooldown))
    && (d.reason.MaxAgeSoft? ==> c.policy.Soft?) && (d.reason.MaxAgeHard? ==> c.policy.Hard?)
    && d.generation == generation + (if d.reason.Hit? then 0 else 1)
    && (d.reason.Hit? ==> d.candidate == id)
  }

  lemma FirstAnswer(c: Config, s: Score, t: Entries, call: Call)
    requires Step(c, s, t, call).decision.Some? && call.key !in t
    ensures var d := Step(c, s, t, call).decision.value; d.reason.New? && d.generation == 0
  {
  }

  lemma StepFollows(c: Config, s: Score, t: Entries, call: Call)
    requires Step(c, s, t, call).decision.Some? && call.key in t
    requires t[call.key].cooldownUntil == SatAdd(t[call.key].createdAt, c.cooldown)
    ensures
      var e := t[call.key];
      Follows(c, call, Step(c, s, t, call).decision.value, e.candidate, e.generation, e.createdAt, e.lastSeenAt)
  {
  }

  /**
   * In every run, the answer to a call follows from the last pick and the last
   * answer for its source: a lost candidate, then too long a quiet, then an age
   * and a cooldown both reached, decide in this order.
   */
  lemma ReasonFromHistory(c: Config, s: Score, calls: seq<Call>, n: nat)
    requires n < |calls| && AnswerAt(c, s, map[], calls, n).Some?
    ensures
      var call, d := calls[n], AnswerAt(c, s, map[], calls, n).value;
      var p, q := LastPick(c, s, calls, call.key, n), LastAnswer(c, s, calls, call.key, n);
      && (p.None? ==> d.reason.New? && d.generation == 0)
      && (p.Some? ==>
            && q.Some? && AnswerAt(c, s, map[], calls, p.value).Some?
            && var was := AnswerAt(c, s, map[], calls, p.value).value;
               Follows(c, call, d, was.candidate, was.generation, calls[p.value].now, calls[q.value].now))
  {
    hide Step, Follows;
    TableFromHistory(c, s, calls, calls[n].key, n);
    var t := TableAt(c, s, map[], calls, n);
    if calls[n].key in t {
      StepFollows(c, s, t, calls[n]);
    } else {
      FirstAnswer(c, s, t, calls[n]);
    }
  }

  // ----- A source that keeps calling keeps its candidate -----

  /** The call leaves the source alone, or offers its candidate before the source was quiet for the timeout. */
  ghost predicate InTime(c: Config, call: Call, key: string, id: string, last: u64) {
    && call.cands != []
    && (call.key == key ==>
          && Offers(call.cands, id)
          && (QuietFor(call, last).None? || QuietFor(call, last).value < c.idleTimeout))
  }

  /** When the source last called before n, if it did since call i. */
  function LastCall(calls: seq<Call>, key: string, i: nat, n: nat): u64
    requires i < n <= |calls|
  {
    if n == i + 1 || calls[n - 1].key == key then calls[n - 1].now else LastCall(calls, key, i, n - 1)
  }

  /** The table keeps the source on the decided candidate, last seen at `last`. */
  ghost predicate Pinned(t: Entries, key: string, d: Decision, last: u64) {
    && key in t && t[key].candidate == d.candidate && t[key].generation == d.generation
    && t[key].lastSeenAt == last
  }

  lemma PinnedByAnswer(c: Config, s: Score, t: Entries, call: Call)
    requires Step(c, s, t, call).decision.Some?
    ensures Pinned(Step(c, s, t, call).entries, call.key, Step(c, s, t, call).decision.value, call.now)
  {
    StepEntry(c, s, t, call, call.key);
  }

  lemma StaysOnce(c: Config, s: Score, t: Entries, call: Call, key: string, d: Decision, last: u64)
    requires c.policy.Off? && Pinned(t, key, d, last) && InTime(c, call, key, d.candidate, last)
    ensures Pinned(Step(c, s, t, call).entries, key, d, if call.key == key then call.now else last)
  {
    StepEntry(c, s, t, call, key);
  }

  /** Every call strictly between i and n is in time for the candidate picked at call i. */
  ghost predicate Steady(c: Config, calls: seq<Call>, id: string, i: nat, n: nat)
    requires i < n <= |calls|
  {
    forall m :: i < m < n ==> InTime(c, calls[m], calls[i].key, id, LastCall(calls, calls[i].key, i, m))
  }

  lemma SteadyStep(c: Config, calls: seq<Call>, id: string, i: nat, n: nat)
    requires i + 1 < n <= |calls| && Steady(c, calls, id, i, n)
    ensures Steady(c, calls, id, i, n - 1)
    ensures InTime(c, calls[n - 1], calls[i].key, id, LastCall(calls, calls[i].key, i, n - 1))
  {
  }

  lemma {:induction false} StaysPut(c: Config, s: Score, calls: seq<Call>, i: nat, n: nat, d: Decision)
    requires c.policy.Off? && i < n <= |calls| && AnswerAt(c, s, map[], calls, i) == Some(d)
    requires Steady(c, calls, d.candidate, i, n)
    ensures Pinned(TableAt(c, s, map[], calls, n), calls[i].key, d, LastCall(calls, calls[i].key, i, n))
    decreases n
  {
    hide Step, Steady, Pinned, InTime;
    var before := TableAt(c, s, map[], calls, n - 1);
    if n == i + 1 {
      PinnedByAnswer(c, s, before, calls[i]);
    } else {
      SteadyStep(c, calls, d.candidate, i, n);
      StaysPut(c, s, calls, i, n - 1, d);
      StaysOnce(c, s, before, calls[n - 1], calls[i].key, d, LastCall(calls, calls[i].key, i, n - 1));
    }
  }

  /**
   * With rotation off, a source that calls again before the idle timeout each
   * time, and finds its candidate offered, is answered with that candidate and
   * generation at every call; the first call that comes later, with the
   * candidate offered, is answered by an idle re-pick.
   */
  lemma FrequentSourceStays(c: Config, s: Score, calls: seq<Call>, i: nat, n: nat)
    requires c.policy.Off? && i < n < |calls| && AnswerAt(c, s, map[], calls, i).Some? && calls[n].key == calls[i].key
    requires Steady(c, calls, AnswerAt(c, s, map[], calls, i).value.candidate, i, n)
    requires Offers(calls[n].cands, AnswerAt(c, s, map[], calls, i).value.candidate)
    ensures
      var d, quiet := AnswerAt(c, s, map[], calls, i).value, QuietFor(calls[n], LastCall(calls, calls[i].key, i, n));
      var after := AnswerAt(c, s, map[], calls, n);
      && (quiet.None? || quiet.value < c.idleTimeout ==> after == Some(Decision(d.candidate, Hit, d.generation)))
      && (quiet.Some? && quiet.value >= c.idleTimeout ==>
            after.Some? && after.value.reason.IdleExpired? && after.value.generation == d.generation + 1)
  {
    StaysPut(c, s, calls, i, n, AnswerAt(c, s, map[], calls, i).value);
    var t := TableAt(c, s, map[], calls, n);
    AnsweredIff(c, s, t, calls[n]);
    GenerationStep(c, s, t, calls[n]);
  }
}
