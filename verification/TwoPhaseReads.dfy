/**
 EXISTS and TTL under concurrency (src/store/store.cpp:189-208, 266-299).  They look twice as GET does,
 with the clock read before either lock.  EXISTS is linearizable; TTL is so if and only if the clock
 does not advance during the call, because it counts the seconds left from the clock of the call.
 */
module TwoPhaseReads {
  import opened Common
  import opened Values
  import opened FlatMap
  import opened Mutation
  import opened LinearizableGet
  import Store

  // ----- EXISTS -----

  function TwoPhaseExists(now: int, shared: Slot, exclusive: Slot): bool {
    match shared
    case Absent => false
    case Present(e) => !Dead(e, now) || (exclusive.Present? && !Dead(exclusive.entry, now))
  }

  /** EXISTS answers what the flat map answers at some instant between its call and its return. */
  lemma ExistsAnswersFlatMap(h: seq<Instance>, k: Key, b: nat, c: nat) returns (i: nat)
    requires StoreHistory(h) && b <= c < |h|
    ensures i <= c
    ensures TwoPhaseExists(h[0].time, SlotOf(h[b].contents, k), SlotOf(h[c].contents, k)) <==>
            k in Live(h[i].contents, h[i].time)
  {
    hide StoreHistory;
    i := GetAnswersFlatMap(h, k, b, c);
  }

  // ----- TTL -----

  const SECOND: int := Store.TICKS_PER_SECOND

  function Seconds(deadline: Instant, now: int): int {
    (deadline - now) / SECOND
  }

  function TwoPhaseTtl(now: int, shared: Slot, exclusive: Slot): int {
    match shared
    case Absent => -2
    case Present(e) =>
      if e.deadline.None? then -1
      else if e.deadline.value > now then Seconds(e.deadline.value, now)
      else
        match exclusive
        case Absent => -2
        case Present(e') =>
          if e'.deadline.None? then -1
          else if Dead(e', now) then -2
          else Seconds(e'.deadline.value, now)
  }

  /** What the flat map answers to TTL at a moment. */
  function Shown(m: Moment): int {
    if m.slot.Absent? || Dead(m.slot.entry, m.time) then -2
    else if m.slot.entry.deadline.None? then -1
    else Seconds(m.slot.entry.deadline.value, m.time)
  }

  lemma ShownIsTimeToLive(m: Flat, k: Key, t: int)
    ensures Shown(Moment(t, SlotOf(m, k))) == Store.TimeToLive(m, k, t)
  {
  }

  /**
   Whatever other threads do: the entry that TTL answers for was visible at some moment of the call, and
   the answer counts its seconds from the clock of the call.  It is never below what was shown then, and
   above it by at most the time since the call, rounded up.
   */
  lemma TtlCountsFromCall(h: seq<Moment>, b: nat, c: nat) returns (i: nat)
    requires History(h) && b <= c < |h|
    ensures i <= c
    ensures var r := TwoPhaseTtl(h[0].time, h[b].slot, h[c].slot);
            if Shown(h[i]) < 0 then r == Shown(h[i])
            else
              && r == Seconds(h[i].slot.entry.deadline.value, h[0].time)
              && Shown(h[i]) <= r <= Shown(h[i]) + (h[i].time - h[0].time + SECOND - 1) / SECOND
  {
    var now := h[0].time;
    match h[b].slot {
      case Absent =>
        i := b;
      case Present(e) =>
        if !Dead(e, now) {
          i := LiveSinceWritten(h, b);
        } else {
          TimeAdvances(h, c);
          if h[c].slot.Present? && !Dead(h[c].slot.entry, now) {
            i := LiveSinceWritten(h, c);
          } else {
            i := c;
          }
        }
    }
    TimeAdvances(h, i);
    if Shown(h[i]) >= 0 {
      RoundedUp(h[i].slot.entry.deadline.value, now, h[i].time);
    }
  }

  lemma RoundedUp(d: Instant, now: int, t: int)
    requires now <= t < d
    ensures Seconds(d, t) <= Seconds(d, now) <= Seconds(d, t) + (t - now + SECOND - 1) / SECOND
  {
  }

  /** The history is read off the given clock, one moment each. */
  predicate OnClock(h: seq<Moment>, clock: seq<Instant>) {
    |h| == |clock| && forall i :: 0 <= i < |h| ==> h[i].time == clock[i]
  }

  predicate Linearizable(h: seq<Moment>, b: nat, c: nat)
    requires b <= c < |h|
  {
    exists i :: 0 <= i <= c && TwoPhaseTtl(h[0].time, h[b].slot, h[c].slot) == Shown(h[i])
  }

  /** Every history that this clock can give answers TTL with what the flat map shows during the call. */
  ghost predicate AlwaysLinearizable(clock: seq<Instant>, b: nat, c: nat)
    requires b <= c < |clock|
  {
    forall h: seq<Moment> :: History(h) && OnClock(h, clock) ==> Linearizable(h, b, c)
  }

  /** TTL is linearizable in every history if and only if the clock stands still during the call. */
  lemma TtlLinearizableIff(clock: seq<Instant>, b: nat, c: nat)
    requires b <= c < |clock| && forall i, j :: 0 <= i < j < |clock| ==> clock[i] <= clock[j]
    requires clock[c] + SECOND < TWO63 * TICKS_PER_MS
    ensures AlwaysLinearizable(clock, b, c) <==> clock[c] == clock[0]
  {
    if clock[c] == clock[0] {
      forall h: seq<Moment> | History(h) && OnClock(h, clock)
        ensures Linearizable(h, b, c)
      {
        StillClock(h, clock, b, c);
      }
    } else {
      var h := Late(clock, c);
      LateOverstates(clock, b, c);
    }
  }

  lemma StillClock(h: seq<Moment>, clock: seq<Instant>, b: nat, c: nat)
    requires History(h) && OnClock(h, clock) && b <= c < |clock| && clock[c] == clock[0]
    requires forall i, j :: 0 <= i < j < |clock| ==> clock[i] <= clock[j]
    ensures Linearizable(h, b, c)
  {
    assert clock[b] == clock[0];
    assert TwoPhaseTtl(h[0].time, h[b].slot, h[c].slot) == Shown(h[b]) ||
           TwoPhaseTtl(h[0].time, h[b].slot, h[c].slot) == Shown(h[c]);
  }

  /** The entries of the failing history: one that is dead at the call, and one with less than a second left. */
  function DeadEntry(clock: seq<Instant>): FlatEntry
    requires clock != []
  {
    FlatEntry(Str([]), Some(clock[0]))
  }

  function LateEntry(clock: seq<Instant>, c: nat): FlatEntry
    requires c < |clock| && clock[c] + SECOND < TWO63 * TICKS_PER_MS
  {
    FlatEntry(Str([]), Some(clock[c] + SECOND - 1))
  }

  /** The dead entry until moment `c`, and from then on the late one. */
  function Late(clock: seq<Instant>, c: nat): (h: seq<Moment>)
    requires c < |clock| && clock[c] + SECOND < TWO63 * TICKS_PER_MS
    ensures OnClock(h, clock)
    ensures forall i :: 0 <= i < |h| ==> h[i].slot == Present(if i < c then DeadEntry(clock) else LateEntry(clock, c))
  {
    seq(|clock|, i requires 0 <= i < |clock| =>
      Moment(clock[i], Present(if i < c then DeadEntry(clock) else LateEntry(clock, c))))
  }

  lemma LateOverstates(clock: seq<Instant>, b: nat, c: nat)
    requires b <= c < |clock| && forall i, j :: 0 <= i < j < |clock| ==> clock[i] <= clock[j]
    requires clock[c] + SECOND < TWO63 * TICKS_PER_MS && clock[c] > clock[0]
    ensures History(Late(clock, c)) && !Linearizable(Late(clock, c), b, c)
  {
    var h := Late(clock, c);
    forall i | 0 <= i < |h| - 1
      ensures Change(h[i], h[i + 1])
    {
    }
    AtLeastASecond(clock[c], clock[0]);
    assert TwoPhaseTtl(h[0].time, h[b].slot, h[c].slot) == Seconds(clock[c] + SECOND - 1, clock[0]);
    forall i | 0 <= i <= c
      ensures Shown(h[i]) <= 0
    {
      assert i < c ==> clock[0] <= clock[i];
    }
  }

  lemma AtLeastASecond(late: Instant, now: int)
    requires late > now && late + SECOND < TWO63 * TICKS_PER_MS
    ensures Seconds(late + SECOND - 1, now) >= 1 && Seconds(late + SECOND - 1, late) == 0
  {
  }

  // ----- The same over the whole store -----

  predicate StoreOnClock(h: seq<Instance>, clock: seq<Instant>) {
    |h| == |clock| && forall i :: 0 <= i < |h| ==> h[i].time == clock[i]
  }

  /** TTL of the key answers what the flat map answers at some instant between its call and its return. */
  predicate AnswersFlatMap(h: seq<Instance>, k: Key, b: nat, c: nat)
    requires b <= c < |h|
  {
    exists i :: 0 <= i <= c &&
      TwoPhaseTtl(h[0].time, SlotOf(h[b].contents, k), SlotOf(h[c].contents, k)) ==
      Store.TimeToLive(h[i].contents, k, h[i].time)
  }

  /** The failing history as steps of the store: at moment `c` a SET with a deadline replaces a dead entry. */
  function LateStore(clock: seq<Instant>, k: Key, c: nat): (h: seq<Instance>)
    requires c < |clock| && clock[c] + SECOND < TWO63 * TICKS_PER_MS
    ensures StoreOnClock(h, clock)
    ensures forall i :: 0 <= i < |h| ==>
              h[i].contents == map[k := if i < c then DeadEntry(clock) else LateEntry(clock, c)]
  {
    seq(|clock|, i requires 0 <= i < |clock| =>
      Instance(clock[i], map[k := if i < c then DeadEntry(clock) else LateEntry(clock, c)]))
  }

  lemma LateStoreIsHistory(clock: seq<Instant>, k: Key, c: nat)
    requires c < |clock| && forall i, j :: 0 <= i < j < |clock| ==> clock[i] <= clock[j]
    requires clock[c] + SECOND < TWO63 * TICKS_PER_MS
    ensures StoreHistory(LateStore(clock, k, c))
  {
    var h := LateStore(clock, k, c);
    forall i | 0 <= i < |h| - 1
      ensures StoreStep(h[i], h[i + 1])
    {
      if i + 1 == c {
        var op := PutOp(k, [], Some(clock[c] + SECOND - 1));
        assert h[i + 1].contents == Apply(h[i].contents, op, h[i + 1].time);
      } else {
        assert h[i + 1].contents == h[i].contents;
      }
    }
  }

  lemma SameAnswer(h: seq<Instance>, k: Key, b: nat, c: nat)
    requires b <= c < |h|
    ensures AnswersFlatMap(h, k, b, c) <==> Linearizable(KeyHistory(h, k), b, c)
  {
    hide TwoPhaseTtl, Shown;
    var r := KeyHistory(h, k);
    forall i | 0 <= i <= c
      ensures Shown(r[i]) == Store.TimeToLive(h[i].contents, k, h[i].time)
    {
      ShownIsTimeToLive(h[i].contents, k, h[i].time);
    }
  }

  /** Over all histories of the store on a clock: TTL is linearizable if and only if the clock stands still. */
  lemma TtlAnswersFlatMapIff(clock: seq<Instant>, k: Key, b: nat, c: nat)
    requires b <= c < |clock| && forall i, j :: 0 <= i < j < |clock| ==> clock[i] <= clock[j]
    requires clock[c] + SECOND < TWO63 * TICKS_PER_MS
    ensures (forall h: seq<Instance> :: StoreHistory(h) && StoreOnClock(h, clock) ==> AnswersFlatMap(h, k, b, c))
            <==> clock[c] == clock[0]
  {
    hide AnswersFlatMap, Linearizable, StoreHistory, Late, LateStore;
    if clock[c] == clock[0] {
      forall h: seq<Instance> | StoreHistory(h) && StoreOnClock(h, clock)
        ensures AnswersFlatMap(h, k, b, c)
      {
        KeyHistoryIsHistory(h, k);
        StillClock(KeyHistory(h, k), clock, b, c);
        SameAnswer(h, k, b, c);
      }
    } else {
      var h := LateStore(clock, k, c);
      LateStoreIsHistory(clock, k, c);
      LateOverstates(clock, b, c);
      assert KeyHistory(h, k) == Late(clock, c) by { LateKey(clock, k, c); }
      SameAnswer(h, k, b, c);
      assert !AnswersFlatMap(h, k, b, c);
    }
  }

  lemma LateKey(clock: seq<Instant>, k: Key, c: nat)
    requires c < |clock| && clock[c] + SECOND < TWO63 * TICKS_PER_MS
    ensures KeyHistory(LateStore(clock, k, c), k) == Late(clock, c)
  {
  }

  /** TTL at 0 s, EXPIRE at 1.5 s to 11.5 s: the answer is 11, and the flat map shows no more than 10. */
  lemma TtlOverstates(k: Key, v: Value)
    ensures var h := [Instance(0, map[k := FlatEntry(v, None)]),
                      Instance(3 * SECOND / 2, map[k := FlatEntry(v, Some(23 * SECOND / 2))])];
            && StoreHistory(h)
            && TwoPhaseTtl(h[0].time, SlotOf(h[1].contents, k), SlotOf(h[1].contents, k)) == 11
            && Store.TimeToLive(h[0].contents, k, h[0].time) == -1
            && Store.TimeToLive(h[1].contents, k, h[1].time) == 10
  {
    var before, after := map[k := FlatEntry(v, None)], map[k := FlatEntry(v, Some(23 * SECOND / 2))];
    var op := ExpireOp(k, 23 * SECOND / 2);
    assert after == Apply(before, op, 3 * SECOND / 2);
    assert StoreStep(Instance(0, before), Instance(3 * SECOND / 2, after));
  }
}
