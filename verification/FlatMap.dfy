/**
 The specification of the store: one flat map whose entries may carry a wall-clock deadline.  An
 entry is gone for every observer from its deadline on, whether or not it is still in memory.
 */
module FlatMap {
  import opened Common
  import opened Values

  datatype FlatEntry = FlatEntry(value: Value, deadline: Option<Instant>)

  type Flat = map<Key, FlatEntry>

  predicate Dead(e: FlatEntry, t: int) {
    e.deadline.Some? && e.deadline.value <= t
  }

  /** What an observer sees at time `t`. */
  function Live(m: Flat, t: int): Flat {
    map k | k in m && !Dead(m[k], t) :: m[k]
  }

  function KeySet(keys: seq<Key>): set<Key> {
    set k | k in keys
  }

  // ----- Operations at one instant -----

  /** A value stored with a deadline that is already due removes the key instead. */
  function Put(m: Flat, k: Key, v: Value, deadline: Option<Instant>, t: int): Flat {
    if deadline.Some? && deadline.value <= t then m - {k} else m[k := FlatEntry(v, deadline)]
  }

  function Get(m: Flat, k: Key, t: int): Option<Value> {
    if k in Live(m, t) then Some(m[k].value) else None
  }

  function Remove(m: Flat, keys: seq<Key>): Flat {
    m - KeySet(keys)
  }

  /** DEL counts each live key once, however often it is named. */
  function RemoveCount(m: Flat, keys: seq<Key>, t: int): nat {
    |KeySet(keys) * Live(m, t).Keys|
  }

  /** EXISTS counts a live key as often as it is named. */
  function ExistsCount(m: Flat, keys: seq<Key>, t: int): nat {
    if keys == [] then 0
    else ExistsCount(m, keys[..|keys| - 1], t) + if keys[|keys| - 1] in Live(m, t) then 1 else 0
  }

  /** The positions that name a key of the map. */
  function Positions(keys: seq<Key>, live: Flat): set<int> {
    set i | 0 <= i < |keys| && keys[i] in live
  }

  lemma LastPosition(keys: seq<Key>, live: Flat)
    requires keys != []
    ensures var n := |keys| - 1;
            |Positions(keys, live)| == |Positions(keys[..n], live)| + if keys[n] in live then 1 else 0
  {
    var n := |keys| - 1;
    var before := Positions(keys[..n], live);
    assert Positions(keys, live) == if keys[n] in live then before + {n} else before;
  }

  /** EXISTS counts the positions that name a live key. */
  lemma {:induction false} ExistsCountIs(m: Flat, keys: seq<Key>, t: int)
    ensures ExistsCount(m, keys, t) == |Positions(keys, Live(m, t))|
    decreases |keys|
  {
    hide Live, Positions;
    if keys == [] {
      NoPositions(Live(m, t));
    } else {
      ExistsCountIs(m, keys[..|keys| - 1], t);
      LastPosition(keys, Live(m, t));
    }
  }

  lemma NoPositions(live: Flat)
    ensures Positions([], live) == {}
  {
  }

  function SetDeadline(m: Flat, k: Key, deadline: Option<Instant>, t: int): Flat {
    if k !in Live(m, t) || deadline.None? || deadline.value <= t then m - {k}
    else m[k := FlatEntry(m[k].value, deadline)]
  }

  /** A key is there until its deadline, and from that instant on it is not. */
  lemma LiveUntilDeadline(m: Flat, k: Key, t: int)
    ensures k in Live(m, t) <==> k in m && (m[k].deadline.Some? ==> t < m[k].deadline.value)
    ensures k in Live(m, t) ==> Live(m, t)[k] == m[k]
  {
  }

  /** A deadline that is reached at the moment it is set removes the key, and one that is not is kept. */
  lemma DeadlineTakesEffect(m: Flat, k: Key, v: Value, d: Instant, t: int)
    ensures k in Put(m, k, v, Some(d), t) <==> t < d
    ensures k in Live(m, t) ==> (k in SetDeadline(m, k, Some(d), t) <==> t < d)
    ensures t < d ==> Put(m, k, v, Some(d), t)[k] == FlatEntry(v, Some(d))
    ensures t < d && k in Live(m, t) ==> SetDeadline(m, k, Some(d), t)[k] == FlatEntry(m[k].value, Some(d))
    ensures Put(m, k, v, None, t) == m[k := FlatEntry(v, None)]
  {
  }

  // ----- Observers only ever look at live entries -----

  lemma LiveLater(m: Flat, t: int, u: int)
    requires t <= u
    ensures Live(Live(m, t), u) == Live(m, u)
  {
  }

  lemma SameLiveLater(a: Flat, b: Flat, t: int, u: int)
    requires t <= u && Live(a, t) == Live(b, t)
    ensures Live(a, u) == Live(b, u)
  {
    LiveLater(a, t, u);
    LiveLater(b, t, u);
  }

  lemma PutLive(m: Flat, k: Key, v: Value, deadline: Option<Instant>, t: int)
    ensures Live(Put(m, k, v, deadline, t), t) == Put(Live(m, t), k, v, deadline, t)
  {
  }

  lemma RemoveLive(m: Flat, keys: seq<Key>, t: int)
    ensures Live(Remove(m, keys), t) == Remove(Live(m, t), keys)
  {
  }

  lemma SetDeadlineLive(m: Flat, k: Key, deadline: Option<Instant>, t: int)
    ensures Live(SetDeadline(m, k, deadline, t), t) == SetDeadline(Live(m, t), k, deadline, t)
  {
    assert Live(Live(m, t), t) == Live(m, t);
  }
}
