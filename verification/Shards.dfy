/** The contents of the sharded store as values: shard maps, their flat view and their sizes. */
module Shards {
  import opened Common
  import opened Values
  import opened FlatMap

  /** A stored entry keeps a monotonic deadline beside the wall-clock one. */
  datatype Entry = Entry(value: Value, expiresAt: Option<int>, wall: Option<Instant>, storedBytes: nat)

  type Shard = map<Key, Entry>

  predicate Expired(e: Entry, now: int) {
    e.expiresAt.Some? && e.expiresAt.value <= now
  }

  function Flatten(e: Entry): FlatEntry {
    FlatEntry(e.value, e.wall)
  }

  /** Every key lies in the shard that its hash selects. */
  ghost predicate Placed(shards: seq<Shard>, index: Key -> nat) {
    forall i, k :: 0 <= i < |shards| && k in shards[i] ==> index(k) == i
  }

  function Merge(shards: seq<Shard>): Shard {
    if shards == [] then map[] else Merge(shards[..|shards| - 1]) + shards[|shards| - 1]
  }

  /** The store as one flat map. */
  function View(shards: seq<Shard>): Flat {
    map k | k in Merge(shards) :: Flatten(Merge(shards)[k])
  }

  lemma {:induction false} MergeAt(shards: seq<Shard>, index: Key -> nat, k: Key)
    requires Placed(shards, index)
    ensures k in Merge(shards) <==> index(k) < |shards| && k in shards[index(k)]
    ensures k in Merge(shards) ==> Merge(shards)[k] == shards[index(k)][k]
    decreases |shards|
  {
    if shards != [] {
      var n := |shards| - 1;
      forall i, x | 0 <= i < |shards[..n]| && x in shards[..n][i]
        ensures index(x) == i
      {
        assert shards[..n][i] == shards[i];
      }
      MergeAt(shards[..n], index, k);
    }
  }

  lemma ViewAt(shards: seq<Shard>, index: Key -> nat, k: Key)
    requires Placed(shards, index) && index(k) < |shards|
    ensures k in View(shards) <==> k in shards[index(k)]
    ensures k in View(shards) ==> View(shards)[k] == Flatten(shards[index(k)][k])
  {
    hide Merge;
    MergeAt(shards, index, k);
  }

  /** Two views agree when they agree key by key. */
  lemma ViewEquals(shards: seq<Shard>, index: Key -> nat, m: Flat)
    requires Placed(shards, index) && forall k :: index(k) < |shards|
    requires forall k :: k in m <==> k in shards[index(k)]
    requires forall k :: k in m ==> m[k] == Flatten(shards[index(k)][k])
    ensures View(shards) == m
  {
    hide View;
    forall k
      ensures k in View(shards) <==> k in m
      ensures k in m ==> View(shards)[k] == m[k]
    {
      ViewAt(shards, index, k);
    }
  }

  lemma ViewStore(shards: seq<Shard>, index: Key -> nat, k: Key, e: Entry)
    requires Placed(shards, index) && forall x :: index(x) < |shards|
    ensures var i := index(k);
            var shards' := shards[i := shards[i][k := e]];
            Placed(shards', index) && View(shards') == View(shards)[k := Flatten(e)]
  {
    hide View;
    var i := index(k);
    var shards' := shards[i := shards[i][k := e]];
    var m := View(shards)[k := Flatten(e)];
    forall x
      ensures x in m <==> x in shards'[index(x)]
      ensures x in m ==> m[x] == Flatten(shards'[index(x)][x])
    {
      ViewAt(shards, index, x);
    }
    ViewEquals(shards', index, m);
  }

  lemma ViewErase(shards: seq<Shard>, index: Key -> nat, k: Key)
    requires Placed(shards, index) && forall x :: index(x) < |shards|
    ensures var i := index(k);
            var shards' := shards[i := shards[i] - {k}];
            Placed(shards', index) && View(shards') == View(shards) - {k}
  {
    hide View;
    var i := index(k);
    var shards' := shards[i := shards[i] - {k}];
    var m := View(shards) - {k};
    forall x
      ensures x in m <==> x in shards'[index(x)]
      ensures x in m ==> m[x] == Flatten(shards'[index(x)][x])
    {
      ViewAt(shards, index, x);
    }
    ViewEquals(shards', index, m);
  }

  // ----- Sizes -----

  ghost function TextBytes(members: set<Bytes>): nat {
    if members == {} then 0
    else var x :| x in members; |x| + TextBytes(members - {x})
  }

  lemma {:induction false} TextBytesRemove(members: set<Bytes>, x: Bytes)
    requires x in members
    ensures TextBytes(members) == |x| + TextBytes(members - {x})
    decreases |members|
  {
    var y :| y in members && TextBytes(members) == |y| + TextBytes(members - {y});
    if y != x {
      TextBytesRemove(members - {y}, x);
      TextBytesRemove(members - {x}, y);
      assert members - {y} - {x} == members - {x} - {y};
    }
  }

  function ItemBytes(items: seq<Bytes>): nat {
    if items == [] then 0 else ItemBytes(items[..|items| - 1]) + |items[|items| - 1]|
  }

  ghost function ValueBytes(v: Value): nat {
    match v
    case Str(text) => |text|
    case Int(_) => 8
    case List(items) => ItemBytes(items)
    case Set(members) => TextBytes(members)
  }

  /** The estimate of one entry: its key, the fixed part of an entry and its value. */
  ghost function Estimate(k: Key, v: Value, entrySize: nat): nat {
    |k| + entrySize + ValueBytes(v)
  }

  /** What an entry costs: its fixed size, its key and the bytes of its value. */
  lemma EstimateLaws(k: Key, entrySize: nat, text: Bytes, number: int64, items: seq<Bytes>, members: set<Bytes>)
    ensures Estimate(k, Str(text), entrySize) == entrySize + |k| + |text|
    ensures Estimate(k, Int(number), entrySize) == entrySize + |k| + 8
    ensures Estimate(k, List([]), entrySize) == Estimate(k, Set({}), entrySize) == entrySize + |k|
    ensures Estimate(k, List(items + [text]), entrySize) == Estimate(k, List(items), entrySize) + |text|
    ensures text !in members ==>
              Estimate(k, Set(members + {text}), entrySize) == Estimate(k, Set(members), entrySize) + |text|
  {
    hide TextBytes;
    assert (items + [text])[..|items|] == items;
    assert TextBytes({}) == 0 by { NoText(); }
    if text !in members {
      TextBytesRemove(members + {text}, text);
      assert members + {text} - {text} == members;
    }
  }

  lemma NoText()
    ensures TextBytes({}) == 0
  {
  }

  ghost function ShardBytes(m: Shard): nat {
    if m == map[] then 0
    else var k :| k in m; m[k].storedBytes + ShardBytes(m - {k})
  }

  lemma {:induction false} ShardBytesErase(m: Shard, k: Key)
    requires k in m
    ensures ShardBytes(m) == m[k].storedBytes + ShardBytes(m - {k})
    decreases |m|
  {
    var y :| y in m && ShardBytes(m) == m[y].storedBytes + ShardBytes(m - {y});
    if y != k {
      ShardBytesErase(m - {y}, k);
      ShardBytesErase(m - {k}, y);
      assert m - {y} - {k} == m - {k} - {y};
    }
  }

  lemma ShardBytesStore(m: Shard, k: Key, e: Entry)
    ensures ShardBytes(m[k := e]) == e.storedBytes + ShardBytes(m - {k})
    ensures k !in m ==> m - {k} == m
  {
    ShardBytesErase(m[k := e], k);
    assert m[k := e] - {k} == m - {k};
  }

  ghost function TotalBytes(shards: seq<Shard>): nat {
    if shards == [] then 0 else TotalBytes(shards[..|shards| - 1]) + ShardBytes(shards[|shards| - 1])
  }

  lemma {:induction false} TotalBytesUpdate(shards: seq<Shard>, i: nat, m: Shard)
    requires i < |shards|
    ensures TotalBytes(shards[i := m]) + ShardBytes(shards[i]) == TotalBytes(shards) + ShardBytes(m)
    decreases |shards|
  {
    hide ShardBytes;
    var n := |shards| - 1;
    if i < n {
      assert shards[i := m][..n] == shards[..n][i := m];
      TotalBytesUpdate(shards[..n], i, m);
    } else {
      assert shards[i := m][..n] == shards[..n];
    }
  }

  // ----- Removing the dead entries of a shard -----

  function Kept(m: Shard, now: int): Shard {
    map k | k in m && !Expired(m[k], now) :: m[k]
  }

  function KeptAll(shards: seq<Shard>, now: int): (r: seq<Shard>)
    ensures |r| == |shards| && forall i :: 0 <= i < |r| ==> r[i] == Kept(shards[i], now)
  {
    seq(|shards|, i requires 0 <= i < |shards| => Kept(shards[i], now))
  }

  /** The monotonic deadline is the wall-clock one seen on the other clock. */
  predicate ClocksAgree(e: Entry, skew: int) {
    match e.wall
    case None => e.expiresAt == None
    case Some(t) => e.expiresAt == Some(t - skew)
  }

  lemma KeptView(shards: seq<Shard>, index: Key -> nat, now: int, skew: int)
    requires Placed(shards, index) && forall k :: index(k) < |shards|
    requires forall i, k :: 0 <= i < |shards| && k in shards[i] ==> ClocksAgree(shards[i][k], skew)
    ensures Placed(KeptAll(shards, now), index)
    ensures View(KeptAll(shards, now)) == Live(View(shards), now + skew)
  {
    hide View;
    var kept, m := KeptAll(shards, now), Live(View(shards), now + skew);
    forall k
      ensures k in m <==> k in kept[index(k)]
      ensures k in m ==> m[k] == Flatten(kept[index(k)][k])
    {
      ViewAt(shards, index, k);
    }
    ViewEquals(kept, index, m);
  }
}
