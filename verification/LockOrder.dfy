/**
 The lock discipline of the engine, the log and the store's shards (src/persistence/engine.cpp,
 src/persistence/wal.cpp, src/store/store.cpp) and the absence of deadlock.  A shard's lock is named
 by its address, which is what the store sorts by.
 */
module LockOrder {
  datatype Lock = Engine | Wal | Shard(address: nat)

  function Rank(l: Lock): nat {
    match l
    case Engine => 0
    case Wal => 1
    case Shard(address) => 2 + address
  }

  datatype Action = Acquire(lock: Lock, shared: bool) | Release(lock: Lock)

  type Program = seq<Action>

  // ----- The order in which several shards are locked -----

  predicate Ascending(xs: seq<nat>) {
    forall i, j :: 0 <= i < j < |xs| ==> xs[i] < xs[j]
  }

  function InsertOnce(x: nat, xs: seq<nat>): seq<nat> {
    if xs == [] then [x]
    else if x < xs[0] then [x] + xs
    else if x == xs[0] then xs
    else [xs[0]] + InsertOnce(x, xs[1..])
  }

  /** Sorted, and each address once. */
  function SortedOnce(xs: seq<nat>): seq<nat> {
    if xs == [] then [] else InsertOnce(xs[0], SortedOnce(xs[1..]))
  }

  lemma {:induction false} InsertOnceElements(x: nat, xs: seq<nat>)
    ensures forall y :: y in InsertOnce(x, xs) <==> y == x || y in xs
    decreases |xs|
  {
    if xs != [] {
      assert xs == [xs[0]] + xs[1..];
      if x > xs[0] {
        InsertOnceElements(x, xs[1..]);
      }
    }
  }

  lemma AscendingCons(x: nat, xs: seq<nat>)
    requires Ascending(xs) && forall y :: y in xs ==> x < y
    ensures Ascending([x] + xs)
  {
    var all := [x] + xs;
    forall i, j | 0 <= i < j < |all|
      ensures all[i] < all[j]
    {
      assert all[j] == xs[j - 1] && xs[j - 1] in xs;
      assert i > 0 ==> all[i] == xs[i - 1];
    }
  }

  lemma {:induction false} InsertOnceAscending(x: nat, xs: seq<nat>)
    requires Ascending(xs)
    ensures Ascending(InsertOnce(x, xs))
    decreases |xs|
  {
    if xs != [] {
      var head, tail := xs[0], xs[1..];
      assert forall y :: y in tail ==> head < y;
      if x < head {
        assert forall y :: y in xs ==> x < y;
        AscendingCons(x, xs);
      } else if x > head {
        InsertOnceAscending(x, tail);
        InsertOnceElements(x, tail);
        AscendingCons(head, InsertOnce(x, tail));
      }
    }
  }

  lemma {:induction false} SortedOnceAscending(xs: seq<nat>)
    ensures Ascending(SortedOnce(xs))
    ensures forall y :: y in SortedOnce(xs) <==> y in xs
    decreases |xs|
  {
    if xs != [] {
      SortedOnceAscending(xs[1..]);
      InsertOnceAscending(xs[0], SortedOnce(xs[1..]));
      InsertOnceElements(xs[0], SortedOnce(xs[1..]));
      assert xs == [xs[0]] + xs[1..];
    }
  }

  // ----- What each operation locks -----

  function Around(l: Lock, shared: bool, inside: Program): Program {
    [Acquire(l, shared)] + inside + [Release(l)]
  }

  function Alone(l: Lock): Program {
    Around(l, false, [])
  }

  function AcquireAll(addresses: seq<nat>): Program {
    seq(|addresses|, i requires 0 <= i < |addresses| => Acquire(Shard(addresses[i]), false))
  }

  function ReleaseAll(addresses: seq<nat>): Program {
    seq(|addresses|, i requires 0 <= i < |addresses| => Release(Shard(addresses[i])))
  }

  /** `lock_mutexes_in_order`, with the release of all locks at the end of the operation. */
  function Together(addresses: seq<nat>): Program {
    AcquireAll(SortedOnce(addresses)) + ReleaseAll(SortedOnce(addresses))
  }

  /** One shard after the other, never two at once. */
  function OneByOne(addresses: seq<nat>): Program {
    if addresses == [] then [] else Alone(Shard(addresses[0])) + OneByOne(addresses[1..])
  }

  datatype Operation =
    | Read(address: nat, recheck: bool)                     // get, exists, ttl
    | Write(address: nat)                                   // set, expire_at
    | Several(addresses: seq<nat>)                          // del_many, exists_many
    | Sweep(addresses: seq<nat>)                            // keys, active_expire_cycle, export, clear, imports
    | DurableWrite(address: nat, sync: bool)                // durable_set, durable_expire
    | DurableDel(addresses: seq<nat>, sync: bool)
    | Snapshot(addresses: seq<nat>, sync: bool)             // snapshot_now, shutdown
    | Recover(addresses: seq<nat>, replayed: seq<seq<nat>>) // clear and imports; the shards of each record
    | LastOffset
    | SyncTick                                              // one round of the everysec thread

  function Logged(sync: bool): Program {
    Alone(Wal) + if sync then Alone(Wal) else []
  }

  function Replayed(records: seq<seq<nat>>): Program {
    if records == [] then [] else Together(records[0]) + Replayed(records[1..])
  }

  function Locks(op: Operation): Program {
    match op
    case Read(a, recheck) => Around(Shard(a), true, []) + if recheck then Alone(Shard(a)) else []
    case Write(a) => Alone(Shard(a))
    case Several(addresses) => Together(addresses)
    case Sweep(addresses) => OneByOne(addresses)
    case DurableWrite(a, sync) => Around(Engine, false, Logged(sync) + Alone(Shard(a)))
    case DurableDel(addresses, sync) => Around(Engine, false, Logged(sync) + Together(addresses))
    case Snapshot(addresses, sync) =>
      Around(Engine, false, (if sync then Alone(Wal) else []) + OneByOne(addresses) + Alone(Wal) + Alone(Wal))
    case Recover(addresses, replayed) =>
      Around(Engine, false, OneByOne(addresses) + Alone(Wal) + Replayed(replayed))
    case LastOffset => Around(Engine, false, Alone(Wal))
    case SyncTick => Alone(Engine) + Alone(Wal)
  }

  /** A thread performs operations one after the other. */
  function ProgramOf(ops: seq<Operation>): Program {
    if ops == [] then [] else Locks(ops[0]) + ProgramOf(ops[1..])
  }

  // ----- The discipline -----

  predicate Below(held: set<Lock>, l: Lock) {
    forall h :: h in held ==> Rank(h) < Rank(l)
  }

  /** From `held`, every lock is acquired above all held ones, only held ones are released, and `after` remains. */
  predicate Ordered(p: Program, held: set<Lock>, after: set<Lock>) {
    if p == [] then held == after
    else match p[0]
      case Acquire(l, _) => Below(held, l) && Ordered(p[1..], held + {l}, after)
      case Release(l) => l in held && Ordered(p[1..], held - {l}, after)
  }

  lemma {:induction false} OrderedThen(p: Program, q: Program, a: set<Lock>, b: set<Lock>, c: set<Lock>)
    requires Ordered(p, a, b) && Ordered(q, b, c)
    ensures Ordered(p + q, a, c)
    decreases |p|
  {
    if p == [] {
      assert p + q == q;
    } else {
      assert (p + q)[1..] == p[1..] + q;
      match p[0] {
        case Acquire(l, _) => OrderedThen(p[1..], q, a + {l}, b, c);
        case Release(l) => OrderedThen(p[1..], q, a - {l}, b, c);
      }
    }
  }

  lemma OrderedAround(l: Lock, shared: bool, p: Program, held: set<Lock>)
    requires Below(held, l) && Ordered(p, held + {l}, held + {l})
    ensures Ordered(Around(l, shared, p), held, held)
  {
    assert l !in held;
    assert held + {l} - {l} == held;
    var last := [Release(l)];
    assert last[1..] == [] && Ordered([], held, held);
    assert Ordered(last, held + {l}, held);
    OrderedThen(p, last, held + {l}, held + {l}, held);
    assert ([Acquire(l, shared)] + p + last)[1..] == p + last;
  }

  lemma OrderedAlone(l: Lock, held: set<Lock>)
    requires Below(held, l)
    ensures Ordered(Alone(l), held, held)
  {
    OrderedAround(l, false, [], held);
  }

  function ShardLocks(addresses: seq<nat>): set<Lock> {
    set a | a in addresses :: Shard(a)
  }

  /** The first `i` of several shards, on top of what was held before. */
  lemma {:induction false} OrderedAcquireAll(addresses: seq<nat>, i: nat, held: set<Lock>)
    requires Ascending(addresses) && i <= |addresses| && Below(held, Shard(0))
    ensures Ordered(AcquireAll(addresses)[i..], held + ShardLocks(addresses[..i]), held + ShardLocks(addresses))
    decreases |addresses| - i
  {
    var p := AcquireAll(addresses)[i..];
    if i == |addresses| {
      assert addresses[..i] == addresses;
    } else {
      OrderedAcquireAll(addresses, i + 1, held);
      assert p[1..] == AcquireAll(addresses)[i + 1..];
      assert addresses[..i + 1] == addresses[..i] + [addresses[i]];
      assert held + ShardLocks(addresses[..i]) + {Shard(addresses[i])} == held + ShardLocks(addresses[..i + 1]);
    }
  }

  lemma {:induction false} OrderedReleaseAll(addresses: seq<nat>, i: nat, held: set<Lock>)
    requires Ascending(addresses) && i <= |addresses| && Below(held, Shard(0))
    ensures Ordered(ReleaseAll(addresses)[i..], held + ShardLocks(addresses[i..]), held)
    decreases |addresses| - i
  {
    var p := ReleaseAll(addresses)[i..];
    if i == |addresses| {
      assert addresses[i..] == [];
      assert held + ShardLocks(addresses[i..]) == held;
    } else {
      OrderedReleaseAll(addresses, i + 1, held);
      assert p[1..] == ReleaseAll(addresses)[i + 1..];
      assert addresses[i..] == [addresses[i]] + addresses[i + 1..];
      assert Shard(addresses[i]) !in held;
      assert held + ShardLocks(addresses[i..]) - {Shard(addresses[i])} == held + ShardLocks(addresses[i + 1..]);
    }
  }

  lemma OrderedTogether(addresses: seq<nat>, held: set<Lock>)
    requires Below(held, Shard(0))
    ensures Ordered(Together(addresses), held, held)
  {
    hide Ordered, SortedOnce;
    var sorted := SortedOnce(addresses);
    SortedOnceAscending(addresses);
    OrderedAcquireAll(sorted, 0, held);
    OrderedReleaseAll(sorted, 0, held);
    assert held + ShardLocks(sorted[..0]) == held;
    assert sorted[0..] == sorted;
    assert AcquireAll(sorted)[0..] == AcquireAll(sorted) && ReleaseAll(sorted)[0..] == ReleaseAll(sorted);
    OrderedThen(AcquireAll(sorted), ReleaseAll(sorted), held, held + ShardLocks(sorted), held);
  }

  lemma {:induction false} OrderedOneByOne(addresses: seq<nat>, held: set<Lock>)
    requires Below(held, Shard(0))
    ensures Ordered(OneByOne(addresses), held, held)
    decreases |addresses|
  {
    if addresses != [] {
      OrderedAlone(Shard(addresses[0]), held);
      OrderedOneByOne(addresses[1..], held);
      OrderedThen(Alone(Shard(addresses[0])), OneByOne(addresses[1..]), held, held, held);
    }
  }

  lemma {:induction false} OrderedReplayed(records: seq<seq<nat>>, held: set<Lock>)
    requires Below(held, Shard(0))
    ensures Ordered(Replayed(records), held, held)
    decreases |records|
  {
    if records != [] {
      OrderedTogether(records[0], held);
      OrderedReplayed(records[1..], held);
      OrderedThen(Together(records[0]), Replayed(records[1..]), held, held, held);
    }
  }

  lemma OrderedLogged(sync: bool)
    ensures Ordered(Logged(sync), {Engine}, {Engine})
  {
    OrderedAlone(Wal, {Engine});
    OrderedThen(Alone(Wal), if sync then Alone(Wal) else [], {Engine}, {Engine}, {Engine});
  }

  lemma OrderedSnapshot(addresses: seq<nat>, sync: bool)
    ensures Ordered(Locks(Snapshot(addresses, sync)), {}, {})
  {
    hide Ordered, OneByOne, Alone;
    var e := {Engine};
    var first := if sync then Alone(Wal) else [];
    OrderedAlone(Wal, e);
    OrderedNone(e);
    OrderedOneByOne(addresses, e);
    OrderedThen(first, OneByOne(addresses), e, e, e);
    OrderedThen(first + OneByOne(addresses), Alone(Wal), e, e, e);
    OrderedThen(first + OneByOne(addresses) + Alone(Wal), Alone(Wal), e, e, e);
    assert {} + e == e;
    OrderedAround(Engine, false, first + OneByOne(addresses) + Alone(Wal) + Alone(Wal), {});
  }

  lemma OrderedNone(held: set<Lock>)
    ensures Ordered([], held, held)
  {
  }

  lemma OrderedRecover(addresses: seq<nat>, replayed: seq<seq<nat>>)
    ensures Ordered(Locks(Recover(addresses, replayed)), {}, {})
  {
    hide Ordered, OneByOne, Replayed, Alone;
    var e := {Engine};
    OrderedAlone(Wal, e);
    OrderedOneByOne(addresses, e);
    OrderedReplayed(replayed, e);
    OrderedThen(OneByOne(addresses), Alone(Wal), e, e, e);
    OrderedThen(OneByOne(addresses) + Alone(Wal), Replayed(replayed), e, e, e);
    assert {} + e == e;
    OrderedAround(Engine, false, OneByOne(addresses) + Alone(Wal) + Replayed(replayed), {});
  }

  // ----- What is locked -----

  /** The shards an operation reads or changes. */
  function Touches(op: Operation): set<nat> {
    match op
    case Read(a, _) => {a}
    case Write(a) => {a}
    case Several(addresses) => set a | a in addresses
    case Sweep(addresses) => set a | a in addresses
    case DurableWrite(a, _) => {a}
    case DurableDel(addresses, _) => set a | a in addresses
    case Snapshot(addresses, _) => set a | a in addresses
    case Recover(addresses, replayed) =>
      (set a | a in addresses) + (set i, a | 0 <= i < |replayed| && a in replayed[i] :: a)
    case LastOffset => {}
    case SyncTick => {}
  }

  lemma TogetherLocks(addresses: seq<nat>, a: nat)
    requires a in addresses
    ensures Acquire(Shard(a), false) in Together(addresses)
  {
    var sorted := SortedOnce(addresses);
    SortedOnceAscending(addresses);
    var i :| 0 <= i < |sorted| && sorted[i] == a;
    assert AcquireAll(sorted)[i] == Acquire(Shard(a), false);
    assert Together(addresses)[i] == AcquireAll(sorted)[i];
  }

  lemma {:induction false} OneByOneLocks(addresses: seq<nat>, a: nat)
    requires a in addresses
    ensures Acquire(Shard(a), false) in OneByOne(addresses)
    decreases |addresses|
  {
    assert Alone(Shard(addresses[0]))[0] == Acquire(Shard(addresses[0]), false);
    if a != addresses[0] {
      OneByOneLocks(addresses[1..], a);
    }
  }

  lemma {:induction false} ReplayedLocks(records: seq<seq<nat>>, i: nat, a: nat)
    requires i < |records| && a in records[i]
    ensures Acquire(Shard(a), false) in Replayed(records)
    decreases i
  {
    if i == 0 {
      TogetherLocks(records[0], a);
    } else {
      ReplayedLocks(records[1..], i - 1, a);
    }
  }

  lemma InsideLocked(l: Lock, shared: bool, inside: Program, action: Action)
    requires action in inside
    ensures action in Around(l, shared, inside)
  {
  }

  /** Every operation locks every shard that it touches, exclusively unless it only reads. */
  lemma LocksWhatItTouches(op: Operation, a: nat)
    requires a in Touches(op)
    ensures Acquire(Shard(a), false) in Locks(op) || (op.Read? && Acquire(Shard(a), true) in Locks(op))
  {
    hide Together, OneByOne, Replayed, Logged;
    var lock := Acquire(Shard(a), false);
    match op {
      case Read(_, _) => assert Around(Shard(a), true, [])[0] == Acquire(Shard(a), true);
      case Write(_) => assert Alone(Shard(a))[0] == lock;
      case Several(addresses) => TogetherLocks(addresses, a);
      case Sweep(addresses) => OneByOneLocks(addresses, a);
      case DurableWrite(_, sync) =>
        assert Alone(Shard(a))[0] == lock;
        InsideLocked(Engine, false, Logged(sync) + Alone(Shard(a)), lock);
      case DurableDel(addresses, sync) =>
        TogetherLocks(addresses, a);
        InsideLocked(Engine, false, Logged(sync) + Together(addresses), lock);
      case Snapshot(addresses, _) => OneByOneLocks(addresses, a);
      case Recover(addresses, replayed) =>
        if a in addresses {
          OneByOneLocks(addresses, a);
        } else {
          var i :| 0 <= i < |replayed| && a in replayed[i];
          ReplayedLocks(replayed, i, a);
        }
      case _ =>
    }
  }

  /** A mutation, a snapshot and a recovery hold the engine's lock from their first action to their last. */
  lemma HoldsEngine(op: Operation)
    requires op.DurableWrite? || op.DurableDel? || op.Snapshot? || op.Recover?
    ensures var p := Locks(op);
            && |p| >= 2 && p[0] == Acquire(Engine, false) && p[|p| - 1] == Release(Engine)
            && Acquire(Wal, false) in p
  {
    hide Together, OneByOne, Replayed;
    var wal := Alone(Wal);
    assert wal[0] == Acquire(Wal, false);
  }

  /** Several shards are all held at one point, which is before the first of them is released. */
  lemma HoldsAllAtOnce(addresses: seq<nat>, i: nat)
    requires i < |Together(addresses)|
    ensures var n := |SortedOnce(addresses)|;
            (i < n <==> Together(addresses)[i].Acquire?) && (i >= n <==> Together(addresses)[i].Release?)
  {
    hide SortedOnce;
  }

  /** The log is locked once to append a record and once more to sync it. */
  lemma LogLockedTwiceIffSynced(sync: bool)
    ensures multiset(Logged(sync))[Acquire(Wal, false)] == if sync then 2 else 1
  {
    assert Logged(sync) == Alone(Wal) + if sync then Alone(Wal) else [];
    assert multiset(Alone(Wal))[Acquire(Wal, false)] == 1;
  }

  /** A thread takes and releases the locks of its operations one operation after the other. */
  lemma {:induction false} ProgramJoins(ops: seq<Operation>, more: seq<Operation>, op: Operation)
    ensures ProgramOf([op]) == Locks(op) && ProgramOf(ops + more) == ProgramOf(ops) + ProgramOf(more)
    decreases |ops|
  {
    hide Locks;
    assert ProgramOf([op]) == Locks(op) + [] == Locks(op);
    if ops == [] {
      assert ops + more == more;
    } else {
      ProgramJoins(ops[1..], more, op);
      assert (ops + more)[1..] == ops[1..] + more;
    }
  }

  /** Every operation keeps the discipline. */
  lemma OperationOrdered(op: Operation)
    ensures Ordered(Locks(op), {}, {})
  {
    hide Ordered, OneByOne, Replayed, Alone, Around, Together, Logged;
    var e := {Engine};
    assert {} + e == e;
    match op {
      case Read(a, recheck) =>
        OrderedNone({} + {Shard(a)});
        OrderedAround(Shard(a), true, [], {});
        OrderedNone({});
        OrderedAlone(Shard(a), {});
        OrderedThen(Around(Shard(a), true, []), if recheck then Alone(Shard(a)) else [], {}, {}, {});
      case Write(a) => OrderedAlone(Shard(a), {});
      case Several(addresses) => OrderedTogether(addresses, {});
      case Sweep(addresses) => OrderedOneByOne(addresses, {});
      case DurableWrite(a, sync) =>
        OrderedLogged(sync);
        OrderedAlone(Shard(a), e);
        OrderedThen(Logged(sync), Alone(Shard(a)), e, e, e);
        OrderedAround(Engine, false, Logged(sync) + Alone(Shard(a)), {});
      case DurableDel(addresses, sync) =>
        OrderedLogged(sync);
        OrderedTogether(addresses, e);
        OrderedThen(Logged(sync), Together(addresses), e, e, e);
        OrderedAround(Engine, false, Logged(sync) + Together(addresses), {});
      case Snapshot(addresses, sync) => OrderedSnapshot(addresses, sync);
      case Recover(addresses, replayed) => OrderedRecover(addresses, replayed);
      case LastOffset =>
        OrderedAlone(Wal, e);
        OrderedAround(Engine, false, Alone(Wal), {});
      case SyncTick =>
        OrderedAlone(Engine, {});
        OrderedAlone(Wal, {});
        OrderedThen(Alone(Engine), Alone(Wal), {}, {}, {});
    }
  }

  lemma {:induction false} ProgramOrdered(ops: seq<Operation>)
    ensures Ordered(ProgramOf(ops), {}, {})
    decreases |ops|
  {
    if ops != [] {
      OperationOrdered(ops[0]);
      ProgramOrdered(ops[1..]);
      OrderedThen(Locks(ops[0]), ProgramOf(ops[1..]), {}, {}, {});
    }
  }

  // ----- Any number of threads -----

  /** What is left to do, and the locks held: shared or not. */
  datatype Thread = Thread(rest: Program, held: map<Lock, bool>)

  type System = seq<Thread>

  function Start(work: seq<seq<Operation>>): System {
    seq(|work|, i requires 0 <= i < |work| => Thread(ProgramOf(work[i]), map[]))
  }

  /** A shared lock is granted beside other shared ones, an exclusive one only alone. */
  predicate Compatible(s: System, t: nat, l: Lock, shared: bool) {
    forall u :: 0 <= u < |s| && u != t && l in s[u].held ==> shared && s[u].held[l]
  }

  predicate CanStep(s: System, t: nat) {
    && t < |s| && s[t].rest != []
    && match s[t].rest[0]
       case Acquire(l, shared) => Compatible(s, t, l, shared)
       case Release(_) => true
  }

  function Advance(s: System, t: nat): System
    requires t < |s| && s[t].rest != []
  {
    var rest := s[t].rest[1..];
    match s[t].rest[0]
    case Acquire(l, shared) => s[t := Thread(rest, s[t].held[l := shared])]
    case Release(l) => s[t := Thread(rest, s[t].held - {l})]
  }

  predicate ThreadOk(t: Thread) {
    Ordered(t.rest, t.held.Keys, {})
  }

  predicate Exclusive(s: System) {
    forall t, u, l :: 0 <= t < |s| && 0 <= u < |s| && t != u && l in s[t].held && l in s[u].held ==>
      s[t].held[l] && s[u].held[l]
  }

  predicate Inv(s: System) {
    (forall t :: 0 <= t < |s| ==> ThreadOk(s[t])) && Exclusive(s)
  }

  lemma StartInv(work: seq<seq<Operation>>)
    ensures Inv(Start(work))
  {
    var s := Start(work);
    forall t | 0 <= t < |s|
      ensures ThreadOk(s[t])
    {
      ProgramOrdered(work[t]);
      assert s[t].held.Keys == {};
    }
  }

  lemma StepKeeps(s: System, t: nat)
    requires Inv(s) && CanStep(s, t)
    ensures Inv(Advance(s, t))
  {
    var s' := Advance(s, t);
    assert ThreadOk(s[t]);
    match s[t].rest[0] {
      case Acquire(l, shared) => assert s'[t].held.Keys == s[t].held.Keys + {l};
      case Release(l) => assert s'[t].held.Keys == s[t].held.Keys - {l};
    }
    assert ThreadOk(s'[t]);
    forall u | 0 <= u < |s'|
      ensures ThreadOk(s'[u])
    {
      assert u != t ==> s'[u] == s[u];
    }
  }

  predicate IsRun(states: seq<System>, moves: seq<nat>, work: seq<seq<Operation>>) {
    && |states| == |moves| + 1 && states[0] == Start(work)
    && forall i :: 0 <= i < |moves| ==> CanStep(states[i], moves[i]) && states[i + 1] == Advance(states[i], moves[i])
  }

  lemma {:induction false} RunInv(states: seq<System>, moves: seq<nat>, work: seq<seq<Operation>>, n: nat)
    requires IsRun(states, moves, work) && n < |states|
    ensures Inv(states[n])
  {
    hide Inv, Advance, CanStep, Start;
    if n == 0 {
      StartInv(work);
    } else {
      RunInv(states, moves, work, n - 1);
      StepKeeps(states[n - 1], moves[n - 1]);
    }
  }

  /** In every state of every run a thread waits only for a lock ranked above all it holds. */
  lemma WaitsUpward(states: seq<System>, moves: seq<nat>, work: seq<seq<Operation>>, n: nat, t: nat)
    requires IsRun(states, moves, work) && n < |states| && t < |states[n]|
    requires states[n][t].rest != [] && states[n][t].rest[0].Acquire?
    ensures Below(states[n][t].held.Keys, states[n][t].rest[0].lock)
  {
    hide IsRun;
    RunInv(states, moves, work, n);
    assert ThreadOk(states[n][t]);
  }

  /** In every reachable state two threads hold the same lock only if both hold it shared. */
  lemma MutualExclusion(
    states: seq<System>, moves: seq<nat>, work: seq<seq<Operation>>, n: nat, t: nat, u: nat, l: Lock)
    requires IsRun(states, moves, work) && n < |states| && t < |states[n]| && u < |states[n]| && t != u
    requires l in states[n][t].held && l in states[n][u].held
    ensures states[n][t].held[l] && states[n][u].held[l]
  {
    hide IsRun;
    RunInv(states, moves, work, n);
  }

  // ----- Progress -----

  /** The strictest lock: it is granted only while nobody else holds it, shared or not. */
  predicate CanStepAlone(s: System, t: nat) {
    && t < |s| && s[t].rest != []
    && match s[t].rest[0]
       case Acquire(l, _) => forall u :: 0 <= u < |s| && u != t ==> l !in s[u].held
       case Release(_) => true
  }

  predicate Waiting(t: Thread) {
    t.rest != [] && t.rest[0].Acquire?
  }

  /** Among the first `n` threads, one that waits for a lock of the highest rank. */
  lemma {:induction false} HighestWaiting(s: System, n: nat, any: nat) returns (t: nat)
    requires n <= |s| && any < n && Waiting(s[any])
    ensures t < n && Waiting(s[t])
    ensures forall u :: 0 <= u < n && Waiting(s[u]) ==> Rank(s[u].rest[0].lock) <= Rank(s[t].rest[0].lock)
    decreases n
  {
    var last := n - 1;
    if exists u :: 0 <= u < last && Waiting(s[u]) {
      var other :| 0 <= other < last && Waiting(s[other]);
      t := HighestWaiting(s, last, other);
      if Waiting(s[last]) && Rank(s[last].rest[0].lock) > Rank(s[t].rest[0].lock) {
        t := last;
      }
    } else {
      t := last;
    }
  }

  lemma SomeoneMoves(s: System, any: nat) returns (t: nat)
    requires Inv(s) && any < |s| && s[any].rest != []
    ensures CanStepAlone(s, t) && CanStep(s, t)
  {
    if exists u :: 0 <= u < |s| && s[u].rest != [] && s[u].rest[0].Release? {
      t :| 0 <= t < |s| && s[t].rest != [] && s[t].rest[0].Release?;
    } else {
      t := HighestWaiting(s, |s|, any);
      var l := s[t].rest[0].lock;
      forall u | 0 <= u < |s| && u != t
        ensures l !in s[u].held
      {
        assert ThreadOk(s[u]);
        HolderWaitsHigher(s[u]);
        assert s[u].rest != [] ==> Waiting(s[u]);
      }
    }
  }

  /** A thread that holds a lock is not finished, and what it waits for ranks above that lock. */
  lemma HolderWaitsHigher(t: Thread)
    requires ThreadOk(t)
    ensures forall l :: l in t.held ==> t.rest != [] && (t.rest[0].Acquire? ==> Rank(l) < Rank(t.rest[0].lock))
  {
  }

  /** In every state of every run, unless all threads are done, some thread can move. */
  lemma NoDeadlock(states: seq<System>, moves: seq<nat>, work: seq<seq<Operation>>, n: nat, any: nat)
    requires IsRun(states, moves, work) && n < |states|
    requires any < |states[n]| && states[n][any].rest != []
    ensures exists t :: CanStepAlone(states[n], t) && CanStep(states[n], t)
  {
    hide IsRun, Inv, CanStep, CanStepAlone;
    RunInv(states, moves, work, n);
    var t := SomeoneMoves(states[n], any);
  }

  function Left(s: System): nat {
    if s == [] then 0 else Left(s[..|s| - 1]) + |s[|s| - 1].rest|
  }

  lemma {:induction false} LeftSet(s: System, i: nat, t: Thread)
    requires i < |s|
    ensures Left(s[i := t]) + |s[i].rest| == Left(s) + |t.rest|
    decreases |s|
  {
    var n := |s| - 1;
    if i == n {
      assert s[i := t][..n] == s[..n];
    } else {
      assert s[i := t][..n] == s[..n][i := t];
      LeftSet(s[..n], i, t);
    }
  }

  lemma {:induction false} LeftAfter(states: seq<System>, moves: seq<nat>, work: seq<seq<Operation>>, n: nat)
    requires IsRun(states, moves, work) && n < |states|
    ensures Left(states[n]) + n == Left(Start(work))
  {
    hide Left, Start, Compatible;
    if n > 0 {
      LeftAfter(states, moves, work, n - 1);
      var s, t := states[n - 1], moves[n - 1];
      LeftSet(s, t, states[n][t]);
      assert states[n] == s[t := states[n][t]];
    }
  }

  /** So every run is finite, and one that cannot be continued has finished all the work of all threads. */
  lemma AllWorkDone(states: seq<System>, moves: seq<nat>, work: seq<seq<Operation>>)
    requires IsRun(states, moves, work)
    ensures |moves| <= Left(Start(work))
    ensures (forall t :: !CanStep(states[|moves|], t)) ==>
              forall t :: 0 <= t < |states[|moves|]| ==> states[|moves|][t] == Thread([], map[])
  {
    hide IsRun, Left, CanStep, CanStepAlone, Start;
    var n := |moves|;
    assert n < |states| by { RunLength(states, moves, work); }
    LeftAfter(states, moves, work, n);
    RunInv(states, moves, work, n);
    if forall t :: !CanStep(states[n], t) {
      forall t | 0 <= t < |states[n]|
        ensures states[n][t] == Thread([], map[])
      {
        if states[n][t].rest != [] {
          NoDeadlock(states, moves, work, n, t);
        }
        assert ThreadOk(states[n][t]);
        assert states[n][t].held.Keys == {};
      }
    }
  }

  lemma RunLength(states: seq<System>, moves: seq<nat>, work: seq<seq<Operation>>)
    requires IsRun(states, moves, work)
    ensures |states| == |moves| + 1
  {
  }
}
