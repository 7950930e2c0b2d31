/**
 Replaying a log with the restart clock (src/persistence/engine.cpp, recover_into) compared with
 the store that never crashed, where each operation ran at its own time.
 */
module Replay {
  import opened Common
  import opened Values
  import opened FlatMap
  import opened Mutation

  datatype Timed = Timed(op: Op, at: int)

  /** The uncrashed store: every operation at the time it was made. */
  function Run(m: Flat, log: seq<Timed>): Flat
    decreases |log|
  {
    if log == [] then m
    else
      var last := log[|log| - 1];
      Apply(Run(m, log[..|log| - 1]), last.op, last.at)
  }

  /** Recovery: every operation at the restart time. */
  function ReplayAt(m: Flat, ops: seq<Op>, restart: int): Flat
    decreases |ops|
  {
    if ops == [] then m
    else Apply(ReplayAt(m, ops[..|ops| - 1], restart), ops[|ops| - 1], restart)
  }

  function Ops(log: seq<Timed>): (r: seq<Op>)
    ensures |r| == |log| && forall i :: 0 <= i < |r| ==> r[i] == log[i].op
  {
    seq(|log|, i requires 0 <= i < |log| => log[i].op)
  }

  predicate NotAfter(log: seq<Timed>, t: int) {
    forall i :: 0 <= i < |log| ==> log[i].at <= t
  }

  /** How one operation at time `t` changes the lowest deadlines. */
  function LowStep(low: map<Key, Instant>, running: Flat, op: Op, t: int): map<Key, Instant> {
    match op
    case PutOp(key, _, expiry) =>
      if expiry.Some? && expiry.value > t then low[key := expiry.value] else low - {key}
    case DelOp(keys) => low - KeySet(keys)
    case ExpireOp(name, at) =>
      if name !in Live(running, t) || at <= t then low - {name}
      else if name in low && low[name] <= at then low
      else low[name := at]
  }

  /** The lowest deadline that each key has had since it was last stored. */
  function Lowest(m: Flat, log: seq<Timed>): map<Key, Instant>
    decreases |log|
  {
    if log == [] then map k | k in m && m[k].deadline.Some? :: m[k].deadline.value
    else
      var before, last := log[..|log| - 1], log[|log| - 1];
      LowStep(Lowest(m, before), Run(m, before), last.op, last.at)
  }

  /** A key survives replay exactly when none of those deadlines had passed at the restart. */
  predicate KeySurvives(replayed: Flat, running: Flat, low: map<Key, Instant>, restart: int, k: Key) {
    && (k in low ==> k in running)
    && (k in running && running[k].deadline.Some? ==> k in low && low[k] <= running[k].deadline.value)
    && (k in Live(replayed, restart) <==> k in running && (k in low ==> low[k] > restart))
    && (k in Live(replayed, restart) ==> replayed[k] == running[k])
  }

  ghost predicate Survivors(replayed: Flat, running: Flat, low: map<Key, Instant>, restart: int) {
    forall k :: KeySurvives(replayed, running, low, restart, k)
  }

  lemma {:induction false} ReplaySurvivors(m: Flat, log: seq<Timed>, restart: int)
    requires NotAfter(log, restart)
    ensures Survivors(ReplayAt(Live(m, restart), Ops(log), restart), Run(m, log), Lowest(m, log), restart)
    decreases |log|
  {
    if log != [] {
      hide KeySurvives, LowStep, Apply, Live;
      var before, last := log[..|log| - 1], log[|log| - 1];
      ReplaySurvivors(m, before, restart);
      assert Ops(log)[..|log| - 1] == Ops(before);
      var replayed := ReplayAt(Live(m, restart), Ops(before), restart);
      forall k
        ensures KeySurvives(Apply(replayed, last.op, restart), Apply(Run(m, before), last.op, last.at),
                            LowStep(Lowest(m, before), Run(m, before), last.op, last.at), restart, k)
      {
        SurvivorStep(replayed, Run(m, before), Lowest(m, before), last.op, last.at, restart, k);
      }
    }
  }

  lemma SurvivorStep(
    replayed: Flat, running: Flat, low: map<Key, Instant>, op: Op, t: int, restart: int, k: Key)
    requires t <= restart && KeySurvives(replayed, running, low, restart, k)
    ensures KeySurvives(Apply(replayed, op, restart), Apply(running, op, t),
                        LowStep(low, running, op, t), restart, k)
  {
    hide KeySurvives;
    match op {
      case PutOp(_, _, _) => SurvivorPut(replayed, running, low, op, t, restart, k);
      case DelOp(_) => SurvivorDel(replayed, running, low, op, t, restart, k);
      case ExpireOp(_, _) => SurvivorExpire(replayed, running, low, op, t, restart, k);
    }
  }

  lemma SurvivorPut(
    replayed: Flat, running: Flat, low: map<Key, Instant>, op: Op, t: int, restart: int, k: Key)
    requires op.PutOp? && t <= restart && KeySurvives(replayed, running, low, restart, k)
    ensures KeySurvives(Apply(replayed, op, restart), Apply(running, op, t),
                        LowStep(low, running, op, t), restart, k)
  {
  }

  lemma SurvivorDel(
    replayed: Flat, running: Flat, low: map<Key, Instant>, op: Op, t: int, restart: int, k: Key)
    requires op.DelOp? && t <= restart && KeySurvives(replayed, running, low, restart, k)
    ensures KeySurvives(Apply(replayed, op, restart), Apply(running, op, t),
                        LowStep(low, running, op, t), restart, k)
  {
  }

  lemma SurvivorExpire(
    replayed: Flat, running: Flat, low: map<Key, Instant>, op: Op, t: int, restart: int, k: Key)
    requires op.ExpireOp? && t <= restart && KeySurvives(replayed, running, low, restart, k)
    ensures KeySurvives(Apply(replayed, op, restart), Apply(running, op, t),
                        LowStep(low, running, op, t), restart, k)
  {
  }

  /** Everything in `a` is in `b` with the same value and deadline. */
  ghost predicate Within(a: Flat, b: Flat) {
    forall k :: k in a ==> k in b && a[k] == b[k]
  }

  lemma SurvivorsWithin(replayed: Flat, running: Flat, low: map<Key, Instant>, restart: int)
    requires Survivors(replayed, running, low, restart)
    ensures Within(Live(replayed, restart), Live(running, restart))
  {
    forall k | k in Live(replayed, restart)
      ensures k in Live(running, restart) && replayed[k] == running[k]
    {
      assert KeySurvives(replayed, running, low, restart, k);
    }
  }

  lemma SurvivorsExact(replayed: Flat, running: Flat, low: map<Key, Instant>, restart: int)
    requires Survivors(replayed, running, low, restart)
    ensures Live(replayed, restart) == Live(running, restart) <==>
            forall k :: k in Live(running, restart) && k in low ==> low[k] > restart
  {
    SurvivorsWithin(replayed, running, low, restart);
    var recovered, uncrashed := Live(replayed, restart), Live(running, restart);
    if forall k :: k in uncrashed && k in low ==> low[k] > restart {
      forall k | k in uncrashed
        ensures k in recovered
      {
        assert KeySurvives(replayed, running, low, restart, k);
      }
      assert recovered.Keys == uncrashed.Keys;
    }
    forall k | k in recovered && k in low
      ensures low[k] > restart
    {
      assert KeySurvives(replayed, running, low, restart, k);
    }
  }

  /** Recovery never invents state: whatever it shows, the uncrashed store shows too. */
  lemma NeverInvents(m: Flat, log: seq<Timed>, restart: int)
    requires NotAfter(log, restart)
    ensures Within(Live(ReplayAt(Live(m, restart), Ops(log), restart), restart), Live(Run(m, log), restart))
  {
    hide Survivors, Live, Run, ReplayAt, Lowest;
    ReplaySurvivors(m, log, restart);
    SurvivorsWithin(ReplayAt(Live(m, restart), Ops(log), restart), Run(m, log), Lowest(m, log), restart);
  }

  lemma ApplyWithin(a: Flat, b: Flat, op: Op, t: int)
    requires Within(a, b)
    ensures Within(Apply(a, op, t), Apply(b, op, t))
  {
    match op {
      case PutOp(_, _, _) =>
      case DelOp(_) =>
      case ExpireOp(_, _) =>
    }
  }

  lemma {:induction false} ReplayWithin(a: Flat, b: Flat, ops: seq<Op>, t: int)
    requires Within(a, b)
    ensures Within(ReplayAt(a, ops, t), ReplayAt(b, ops, t))
    decreases |ops|
  {
    if ops != [] {
      hide Within, Apply;
      var before := ops[..|ops| - 1];
      ReplayWithin(a, b, before, t);
      ApplyWithin(ReplayAt(a, before, t), ReplayAt(b, before, t), ops[|ops| - 1], t);
    }
  }

  /** Replaying onto less than was there, onto nothing in particular, invents nothing either. */
  lemma LessNeverInvents(less: Flat, m: Flat, log: seq<Timed>, restart: int)
    requires NotAfter(log, restart) && Within(less, Live(m, restart))
    ensures Within(Live(ReplayAt(less, Ops(log), restart), restart), Live(Run(m, log), restart))
  {
    hide Run, ReplayAt;
    NeverInvents(m, log, restart);
    ReplayWithin(less, Live(m, restart), Ops(log), restart);
  }

  /** No visible key has had, since it was stored, a deadline that has passed. */
  ghost predicate NoneSuperseded(m: Flat, log: seq<Timed>, restart: int) {
    forall k :: k in Live(Run(m, log), restart) && k in Lowest(m, log) ==> Lowest(m, log)[k] > restart
  }

  /** Recovery shows exactly the uncrashed store if and only if no passed deadline was superseded. */
  lemma ReplayExactIff(m: Flat, log: seq<Timed>, restart: int)
    requires NotAfter(log, restart)
    ensures Live(ReplayAt(Live(m, restart), Ops(log), restart), restart) == Live(Run(m, log), restart)
            <==> NoneSuperseded(m, log, restart)
  {
    hide Survivors, Live, Run, ReplayAt, Lowest;
    ReplaySurvivors(m, log, restart);
    SurvivorsExact(ReplayAt(Live(m, restart), Ops(log), restart), Run(m, log), Lowest(m, log), restart);
  }

  /** Between two stores of a key its deadlines never move later. */
  predicate DeadlinesOnlyShrink(m: Flat, log: seq<Timed>)
    decreases |log|
  {
    log == [] ||
    (var now, last := Run(m, log[..|log| - 1]), log[|log| - 1];
     && DeadlinesOnlyShrink(m, log[..|log| - 1])
     && (last.op.ExpireOp? && last.op.name in Live(now, last.at) && now[last.op.name].deadline.Some? ==>
           last.op.at <= now[last.op.name].deadline.value))
  }

  /** The lowest deadline of a key is the one it has. */
  predicate Settled(running: Flat, low: map<Key, Instant>, k: Key) {
    && (k in low <==> k in running && running[k].deadline.Some?)
    && (k in low ==> Some(low[k]) == running[k].deadline)
  }

  lemma {:induction false} ShrinkingLowest(m: Flat, log: seq<Timed>)
    requires DeadlinesOnlyShrink(m, log)
    ensures forall k :: Settled(Run(m, log), Lowest(m, log), k)
    decreases |log|
  {
    if log != [] {
      hide Settled, LowStep, Apply, Live;
      var before, last := log[..|log| - 1], log[|log| - 1];
      ShrinkingLowest(m, before);
      forall k
        ensures Settled(Apply(Run(m, before), last.op, last.at),
                        LowStep(Lowest(m, before), Run(m, before), last.op, last.at), k)
      {
        SettledStep(Run(m, before), Lowest(m, before), last.op, last.at, k);
      }
    }
  }

  lemma SettledStep(running: Flat, low: map<Key, Instant>, op: Op, t: int, k: Key)
    requires Settled(running, low, k)
    requires op.ExpireOp? && op.name in Live(running, t) && running[op.name].deadline.Some? ==>
               op.at <= running[op.name].deadline.value
    ensures Settled(Apply(running, op, t), LowStep(low, running, op, t), k)
  {
    match op {
      case PutOp(_, _, _) =>
      case DelOp(_) =>
      case ExpireOp(_, _) =>
    }
  }

  /** With deadlines that only shrink, recovery is exact at every restart time. */
  lemma ReplayExactWhenShrinking(m: Flat, log: seq<Timed>, restart: int)
    requires NotAfter(log, restart) && DeadlinesOnlyShrink(m, log)
    ensures Live(ReplayAt(Live(m, restart), Ops(log), restart), restart) == Live(Run(m, log), restart)
  {
    hide Run, ReplayAt, Lowest;
    ShrinkingLowest(m, log);
    ReplayExactIff(m, log, restart);
    assert forall k :: k in Live(Run(m, log), restart) ==> Settled(Run(m, log), Lowest(m, log), k);
  }

  /** The family of logs on which recovery loses a key: a deadline passes after a later one replaced it. */
  lemma SupersededDeadlineLosesKey(k: Key, text: Bytes, first: Instant, second: Instant, restart: int)
    requires 0 < first <= restart < second
    ensures var log := [Timed(PutOp(k, text, None), 0), Timed(ExpireOp(k, first), 0), Timed(ExpireOp(k, second), 0)];
            && k in Live(Run(map[], log), restart)
            && k !in Live(ReplayAt(map[], Ops(log), restart), restart)
  {
    var log := [Timed(PutOp(k, text, None), 0), Timed(ExpireOp(k, first), 0), Timed(ExpireOp(k, second), 0)];
    assert log[..2][..1] == log[..1] && log[..1][..0] == [];
    var ops := Ops(log);
    assert ops[..2][..1] == ops[..1] && ops[..1][..0] == [];
    var m1: Flat := map[k := FlatEntry(Str(text), None)];
    assert Run(map[], log[..1]) == m1;
    var m2: Flat := map[k := FlatEntry(Str(text), Some(first))];
    assert Run(map[], log[..2]) == m2;
    assert ReplayAt(map[], ops[..1], restart) == m1;
    assert ReplayAt(map[], ops[..2], restart) == map[];
  }
}
