/**
 GET under concurrency (src/store/store.cpp:121-144): the clock is read before either lock, a shared
 look may answer, and otherwise an exclusive look answers.  Other threads change the key in between.
 */
module LinearizableGet {
  import opened Common
  import opened Values
  import opened FlatMap
  import opened Mutation
  import opened Replay

  /** One key over time: what its shard holds at an instant. */
  datatype Slot = Absent | Present(entry: FlatEntry)

  datatype Moment = Moment(time: int, slot: Slot)

  function Visible(m: Moment): Option<Value> {
    if m.slot.Present? && !Dead(m.slot.entry, m.time) then Some(m.slot.entry.value) else None
  }

  function SlotOf(m: Flat, k: Key): Slot {
    if k in m then Present(m[k]) else Absent
  }

  /**
   What one critical section of another thread may do to a key: leave it, remove it, or write an
   entry that is live at the time read inside the section.
   */
  predicate Change(before: Moment, after: Moment) {
    && before.time <= after.time
    && (after.slot == before.slot || after.slot.Absent? ||
        (after.slot.Present? && !Dead(after.slot.entry, after.time)))
  }

  predicate History(h: seq<Moment>) {
    |h| > 0 && forall i :: 0 <= i < |h| - 1 ==> Change(h[i], h[i + 1])
  }

  /** Every mutation of the store is such a change, for every key. */
  lemma MutationsAreChanges(m: Flat, op: Op, k: Key, before: int, t: int)
    requires before <= t
    ensures Change(Moment(before, SlotOf(m, k)), Moment(t, SlotOf(Apply(m, op, t), k)))
  {
    match op {
      case PutOp(_, _, _) =>
      case DelOp(_) =>
      case ExpireOp(_, _) =>
    }
  }

  /** The two looks of the source, with the stale clock reading `now`. */
  function TwoPhaseGet(now: int, shared: Slot, exclusive: Slot): Option<Value> {
    match shared
    case Absent => None
    case Present(e) =>
      if !Dead(e, now) then Some(e.value) else
      match exclusive
      case Absent => None
      case Present(e') => if Dead(e', now) then None else Some(e'.value)
  }

  /** An entry that is live by the stale clock was there, and visible, at the call or when it was written. */
  lemma {:induction false} LiveSinceWritten(h: seq<Moment>, n: nat) returns (i: nat)
    requires History(h) && n < |h| && h[n].slot.Present? && !Dead(h[n].slot.entry, h[0].time)
    ensures i <= n && h[i].slot == h[n].slot && Visible(h[i]) == Some(h[n].slot.entry.value)
    decreases n
  {
    if n == 0 {
      i := 0;
    } else {
      assert Change(h[n - 1], h[n]);
      if h[n].slot == h[n - 1].slot {
        i := LiveSinceWritten(h, n - 1);
      } else {
        i := n;
      }
    }
  }

  lemma {:induction false} TimeAdvances(h: seq<Moment>, n: nat)
    requires History(h) && n < |h|
    ensures h[0].time <= h[n].time
    decreases n
  {
    if n > 0 {
      TimeAdvances(h, n - 1);
      assert Change(h[n - 1], h[n]);
    }
  }

  /**
   Whatever other threads do between the call, the shared look at moment `b` and the exclusive look
   at moment `c`, the answer is what the flat map shows at some moment of the call.
   */
  lemma GetIsLinearizable(h: seq<Moment>, b: nat, c: nat) returns (i: nat)
    requires History(h) && b <= c < |h|
    ensures i <= c && TwoPhaseGet(h[0].time, h[b].slot, h[c].slot) == Visible(h[i])
  {
    var now := h[0].time;
    match h[b].slot {
      case Absent =>
        i := b;
      case Present(e) =>
        if !Dead(e, now) {
          i := LiveSinceWritten(h, b);
        } else {
          TimeAdvances(h, c);
          match h[c].slot {
            case Absent =>
              i := c;
            case Present(e') =>
              if Dead(e', now) {
                i := c;
              } else {
                i := LiveSinceWritten(h, c);
              }
          }
        }
    }
  }

  // ----- The same over the whole store -----

  datatype Instance = Instance(time: int, contents: Flat)

  /** One critical section of any thread: a mutation, or the removal of some entries. */
  ghost predicate StoreStep(a: Instance, b: Instance) {
    && a.time <= b.time
    && (Within(b.contents, a.contents) || exists op :: b.contents == Apply(a.contents, op, b.time))
  }

  ghost predicate StoreHistory(h: seq<Instance>) {
    |h| > 0 && forall i :: 0 <= i < |h| - 1 ==> StoreStep(h[i], h[i + 1])
  }

  function KeyHistory(h: seq<Instance>, k: Key): (r: seq<Moment>)
    ensures |r| == |h| && forall i :: 0 <= i < |h| ==> r[i] == Moment(h[i].time, SlotOf(h[i].contents, k))
  {
    seq(|h|, i requires 0 <= i < |h| => Moment(h[i].time, SlotOf(h[i].contents, k)))
  }

  lemma KeyHistoryIsHistory(h: seq<Instance>, k: Key)
    requires StoreHistory(h)
    ensures History(KeyHistory(h, k))
  {
    hide Apply;
    var r := KeyHistory(h, k);
    forall i | 0 <= i < |r| - 1
      ensures Change(r[i], r[i + 1])
    {
      assert StoreStep(h[i], h[i + 1]);
      if !Within(h[i + 1].contents, h[i].contents) {
        var op :| h[i + 1].contents == Apply(h[i].contents, op, h[i + 1].time);
        MutationsAreChanges(h[i].contents, op, k, h[i].time, h[i + 1].time);
      }
    }
  }

  /**
   GET answers what the flat map answers at some instant between its call and its return, whatever
   the other threads do in between.
   */
  lemma GetAnswersFlatMap(h: seq<Instance>, k: Key, b: nat, c: nat) returns (i: nat)
    requires StoreHistory(h) && b <= c < |h|
    ensures i <= c
    ensures TwoPhaseGet(h[0].time, SlotOf(h[b].contents, k), SlotOf(h[c].contents, k)) ==
            FlatMap.Get(h[i].contents, k, h[i].time)
  {
    KeyHistoryIsHistory(h, k);
    i := GetIsLinearizable(KeyHistory(h, k), b, c);
  }

  /** The stale clock alone does not do: a key may be visible to GET when it is already dead. */
  lemma AnswerMayBePast(k: Value, d: Instant)
    ensures var e := FlatEntry(k, Some(d));
            var h := [Moment(d - 1, Present(e)), Moment(d, Present(e))];
            && History(h)
            && TwoPhaseGet(h[0].time, h[1].slot, h[1].slot) == Some(k)
            && Visible(h[1]) == None && Visible(h[0]) == Some(k)
  {
  }
}
